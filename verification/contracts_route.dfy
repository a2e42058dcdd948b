/** The `/api/contracts` handlers (nodejs/src/app/api/contracts/route.ts):
    GET lists or searches contracts, POST validates a new contract and creates it. */
module ContractsRoute {
  import opened Results
  import opened Text
  import Store
  import Tags

  // ---------------------------------------------------------------------------
  // GET
  // ---------------------------------------------------------------------------

  /** The query-string parameters, `None` when absent. */
  datatype Query = Query(search: Option<string>, status: Option<string>, includeTags: Option<string>)

  /** The JSON body of a successful GET; `tags` is present only when requested. */
  datatype ListResponse = ListResponse(contracts: seq<Store.Contract>, tags: Option<seq<string>>)

  /** `status || 'active'` passed on to the store, where only 'active' and 'archived' filter. */
  function StatusFilter(status: Option<string>): (f: Store.StatusFilter)
    ensures f == Store.OnlyActive <==> status == None || status == Some("") || status == Some("active")
    ensures f == Store.OnlyArchived <==> status == Some("archived")
  {
    var s := if status == None || status == Some("") then "active" else status.value;
    if s == "active" then Store.OnlyActive
    else if s == "archived" then Store.OnlyArchived
    else Store.AllStatuses
  }

  /** A non-empty `search` parameter selects the search query. */
  predicate Searching(q: Query) {
    q.search.Some? && q.search.value != ""
  }

  /** The name pattern of a query: the search parameter when it is non-empty. */
  function Pattern(q: Query): Option<string> {
    if Searching(q) then Some(q.search.value) else None
  }

  /** GET /api/contracts. The contracts are the whole table newest first, narrowed to the rows
      the status admits and, when searching, whose name matches; the tags, when requested, are
      the sorted, duplicate-free tags of all rows. */
  function Get(rows: seq<Store.Contract>, q: Query): (r: ListResponse)
    ensures r.contracts == Store.Select(Store.GetAllContracts(rows, Store.AllStatuses), StatusFilter(q.status), Pattern(q))
    ensures r.tags.Some? <==> q.includeTags == Some("true")
    ensures r.tags.Some? ==> Tags.StrictlySorted(r.tags.value) && forall t :: t in r.tags.value <==> Tags.TagOfSomeRow(t, rows)
  {
    var f := StatusFilter(q.status);
    Store.ListingIsSelection(rows, f);
    Store.SearchIsSelection(rows, q.search.GetOr(""), f);
    var contracts := if Searching(q) then Store.SearchContracts(rows, q.search.value, f) else Store.GetAllContracts(rows, f);
    ListResponse(contracts, if q.includeTags == Some("true") then Some(Tags.GetAllTags(rows)) else None)
  }

  /** Without a status parameter archived contracts are hidden, and every active or NULL-status row is shown. */
  lemma DefaultHidesArchived(rows: seq<Store.Contract>, search: Option<string>)
    ensures var listed := Get(rows, Query(search, None, None)).contracts;
      (forall c :: c in listed ==> c.status != Some(Store.Archived)) &&
      (search == None ==> forall i :: 0 <= i < |rows| && rows[i].status != Some(Store.Archived) ==> Store.Summary(rows[i]) in listed)
  {
    forall i | 0 <= i < |rows| && rows[i].status != Some(Store.Archived)
      ensures Store.Admits(Store.OnlyActive, rows[i])
    {
      assert rows[i].status.Some? ==> rows[i].status.value == Store.Active;
    }
  }

  /** Any status other than 'active' and 'archived' lists every contract, as 'all' does. */
  lemma UnknownStatusListsAll(rows: seq<Store.Contract>, search: Option<string>, status: string)
    requires status != "" && status != "active" && status != "archived"
    ensures Get(rows, Query(search, Some(status), None)) == Get(rows, Query(search, Some("all"), None))
    ensures search == None ==> |Get(rows, Query(search, Some(status), None)).contracts| == |rows|
  {
    Store.ListAllNewestFirst(rows);
  }

  /** An empty search is no search. */
  lemma EmptySearchIsListing(rows: seq<Store.Contract>, status: Option<string>, includeTags: Option<string>)
    ensures Get(rows, Query(Some(""), status, includeTags)) == Get(rows, Query(None, status, includeTags))
  {
  }

  // ---------------------------------------------------------------------------
  // POST
  // ---------------------------------------------------------------------------

  /** The parsed JSON body; a field is `None` when absent. */
  datatype Body = Body(
    nome: Option<string>, nif: Option<string>, email: Option<string>, whatsapp: Option<string>,
    endereco: Option<string>, plano: Option<string>, signature: Option<string>)

  datatype PostResponse =
    | Created(number: string)       // 200, `{ success: true, contract_number }`
    | BadRequest(error: string)     // 400
    | ServerError(error: string)    // 500

  /** The required fields, in the order they are checked. */
  const RequiredFields: seq<string> := ["nome", "nif", "email", "whatsapp", "endereco", "plano"]

  function Field(b: Body, name: string): Option<string> {
    match name
    case "nome" => b.nome
    case "nif" => b.nif
    case "email" => b.email
    case "whatsapp" => b.whatsapp
    case "endereco" => b.endereco
    case "plano" => b.plano
    case _ => None
  }

  /** `!body[field]`: absent or empty. */
  predicate Missing(v: Option<string>) {
    v == None || v == Some("")
  }

  /** The first of `fields` that is missing from the body. */
  function FirstMissing(b: Body, fields: seq<string>): (r: Option<string>)
    ensures r.None? <==> forall k :: 0 <= k < |fields| ==> !Missing(Field(b, fields[k]))
    ensures r.Some? ==> exists k :: 0 <= k < |fields| && fields[k] == r.value && Missing(Field(b, fields[k]))
                                   && (forall j :: 0 <= j < k ==> !Missing(Field(b, fields[j])))
  {
    if |fields| == 0 then None
    else if Missing(Field(b, fields[0])) then Some(fields[0])
    else
      var r := FirstMissing(b, fields[1..]);
      assert forall k :: 1 <= k < |fields| ==> fields[k] == fields[1..][k - 1];
      if r.Some? then
        var k :| 0 <= k < |fields| - 1 && fields[1..][k] == r.value && Missing(Field(b, fields[1..][k]))
                 && (forall j :: 0 <= j < k ==> !Missing(Field(b, fields[1..][j])));
        assert fields[k + 1] == r.value;
        r
      else r
  }

  const RequiredMessage := "Campo obrigat\U{F3}rio: "

  /** The store input built from a complete body. */
  function Input(b: Body): Store.ContractInput {
    Store.ContractInput(b.nome.GetOr(""), b.nif.GetOr(""), b.whatsapp.GetOr(""), b.email.GetOr(""),
                        b.endereco.GetOr(""), b.plano.GetOr(""), b.signature)
  }

  /** POST /api/contracts; `None` is a body that is not valid JSON. */
  function Post(db: Store.Db, body: Option<Body>, year: nat): (r: (Store.Db, PostResponse))
    ensures r.1.BadRequest? <==> body.Some? && FirstMissing(body.value, RequiredFields).Some?
    ensures r.1.BadRequest? ==> r.1.error == RequiredMessage + FirstMissing(body.value, RequiredFields).value
    ensures r.1.Created? <==> body.Some? && FirstMissing(body.value, RequiredFields).None?
                              && Store.CreateContract(db, Input(body.value), year).Ok?
    ensures r.1.Created? ==> Store.CreateContract(db, Input(body.value), year) == Ok((r.0, r.1.number))
    ensures !r.1.Created? ==> r.0 == db
  {
    if body.None? then (db, ServerError("Failed to create contract"))
    else
      var missing := FirstMissing(body.value, RequiredFields);
      if missing.Some? then (db, BadRequest(RequiredMessage + missing.value))
      else
        match Store.CreateContract(db, Input(body.value), year)
        case Ok((db', n)) => (db', Created(n))
        case Err(_) => (db, ServerError("Failed to create contract"))
  }

  /** A body with every required field non-empty, on a table whose year is dense, creates the
      contract; it is then the first contract the default listing shows. */
  lemma CompletePostCreates(db: Store.Db, b: Body, year: nat)
    requires forall k :: 0 <= k < |RequiredFields| ==> !Missing(Field(b, RequiredFields[k]))
    requires Store.Dense(db.contracts, year)
    ensures Post(db, Some(b), year).1.Created?
    ensures var listed := Get(Post(db, Some(b), year).0.contracts, Query(None, None, None)).contracts;
      |listed| > 0 && listed[0].nome == b.nome.value
  {
    Store.DenseMeansFresh(db, Input(b), year);
    Store.CreatedIsListedFirst(db, Input(b), year);
  }

  /** The fields are checked in order: with several missing, the message names the first. */
  lemma MissingNomeReportedFirst(db: Store.Db, b: Body, year: nat)
    requires Missing(b.nome)
    ensures Post(db, Some(b), year) == (db, BadRequest(RequiredMessage + "nome"))
  {
  }

  /** A missing plan is reported once every other field is present. */
  lemma MissingPlanoReportedLast(db: Store.Db, b: Body, year: nat)
    requires Missing(b.plano)
    requires !Missing(b.nome) && !Missing(b.nif) && !Missing(b.email) && !Missing(b.whatsapp) && !Missing(b.endereco)
    ensures Post(db, Some(b), year) == (db, BadRequest(RequiredMessage + "plano"))
  {
    PlanoFirstMissing(b);
  }

  lemma PlanoFirstMissing(b: Body)
    requires Missing(b.plano)
    requires !Missing(b.nome) && !Missing(b.nif) && !Missing(b.email) && !Missing(b.whatsapp) && !Missing(b.endereco)
    ensures FirstMissing(b, RequiredFields) == Some("plano")
  {
    var fs := RequiredFields;
    assert Field(b, fs[0]) == b.nome && Field(b, fs[1]) == b.nif && Field(b, fs[2]) == b.email;
    assert Field(b, fs[3]) == b.whatsapp && Field(b, fs[4]) == b.endereco && Field(b, fs[5]) == b.plano;
    var r := FirstMissing(b, fs);
    assert r.Some?;
    var k :| 0 <= k < |fs| && fs[k] == r.value && Missing(Field(b, fs[k]));
    assert k == 5;
  }
}
