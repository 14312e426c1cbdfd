/** The store behind the routes: four tables held as sequences of rows in the
    order the store returns them, and the outcomes a route handler produces. */
module Tables {

  datatype Option<T> = None | Some(value: T)

  /** JavaScript truthiness of a request or row field that holds text:
      an absent field, `null` and the empty string are falsy. */
  predicate Truthy(v: Option<string>)
  {
    v.Some? && v.value != ""
  }

  /** A row of `companies`; `name` and `description` are NULL when the
      request body left them out. */
  datatype Company = Company(code: string, name: Option<string>, description: Option<string>)

  /** A row of `invoices`; `id` is the serial key. */
  datatype Invoice = Invoice(id: int, compCode: string, amt: int, paid: bool,
                             addDate: string, paidDate: Option<string>)

  /** A row of `industries`. */
  datatype Industry = Industry(code: string, industry: string)

  /** A row of `company_industry`. */
  datatype Link = Link(compCode: string, indCode: string)

  /** A failure handed to the central error responder (`next(err)`). */
  datatype Fault =
    | DuplicateKey         // the store rejected an insert on its primary key
    | SlugOfUndefined      // slugify threw: its argument was not a string
    | UndefinedIdentifier  // evaluating an undeclared identifier threw a ReferenceError

  /** What a route handler sends back. */
  datatype Response<T> = Ok(doc: T) | NotFound | BadRequest | Failed(fault: Fault)

  /** The body of a successful delete, `{status: "deleted"}`. */
  datatype Status = Status(status: string)

  const Deleted := Status("deleted")

  predicate UniqueCompanyCodes(cs: seq<Company>)
  {
    forall i, j :: 0 <= i < j < |cs| ==> cs[i].code != cs[j].code
  }

  predicate UniqueInvoiceIds(vs: seq<Invoice>)
  {
    forall i, j :: 0 <= i < j < |vs| ==> vs[i].id != vs[j].id
  }

  predicate UniqueIndustryCodes(ds: seq<Industry>)
  {
    forall i, j :: 0 <= i < j < |ds| ==> ds[i].code != ds[j].code
  }

  predicate HasCompany(cs: seq<Company>, code: string)
  {
    exists i :: 0 <= i < |cs| && cs[i].code == code
  }

  predicate HasInvoice(vs: seq<Invoice>, id: int)
  {
    exists i :: 0 <= i < |vs| && vs[i].id == id
  }

  predicate HasIndustry(ds: seq<Industry>, code: string)
  {
    exists i :: 0 <= i < |ds| && ds[i].code == code
  }

  /** Dropping the first row of a table whose rows have distinct keys leaves distinct keys. */
  lemma UniqueTail<T, K>(s: seq<T>, key: T -> K)
    requires s != []
    requires forall i, j :: 0 <= i < j < |s| ==> key(s[i]) != key(s[j])
    ensures forall i, j :: 0 <= i < j < |s| - 1 ==> key(s[1..][i]) != key(s[1..][j])
  {
    forall i, j | 0 <= i < j < |s| - 1 ensures key(s[1..][i]) != key(s[1..][j]) {
      assert s[1..][i] == s[i + 1] && s[1..][j] == s[j + 1];
    }
  }

  /** The database the routes share. Each field is one table, reassigned by
      the statements that change it. */
  class Database {
    var companies: seq<Company>
    var invoices: seq<Invoice>
    var industries: seq<Industry>
    var links: seq<Link>

    /** The primary keys the schema declares are unique. */
    ghost predicate Valid()
      reads this
    {
      UniqueCompanyCodes(companies) && UniqueInvoiceIds(invoices) && UniqueIndustryCodes(industries)
    }

    constructor ()
      ensures Valid()
      ensures companies == [] && invoices == [] && industries == [] && links == []
    {
      companies, invoices, industries, links := [], [], [], [];
    }
  }
}
