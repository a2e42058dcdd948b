/** The contracts table of database.py: the same numbering scheme as the
    TypeScript store, without the status and tags columns and without the
    settings table. */
module PyStore {
  import opened Results
  import opened Text
  import opened Numbering
  import Store

  /** A row of the Python `contracts` table. */
  datatype Row = Row(
    id: nat,
    number: string,
    nome: string,
    nif: string,
    whatsapp: string,
    email: string,
    endereco: string,
    plano: string,
    signature: Option<string>)

  datatype Db = Db(rows: seq<Row>, nextId: nat)

  function NumbersOf(rows: seq<Row>): (ns: seq<string>)
    ensures |ns| == |rows| && forall i :: 0 <= i < |rows| ==> ns[i] == rows[i].number
  {
    seq(|rows|, i requires 0 <= i < |rows| => rows[i].number)
  }

  /** `generate_contract_number`: the year's `LIKE 'CTR-<year>-%'` count plus one, as `{:04d}`. */
  function GenerateContractNumber(db: Db, year: nat): (r: string)
    ensures StartsWith(r, YearPrefix(year))
    ensures ParseSequence(r, year) == Some(|Store.WithPrefix(NumbersOf(db.rows), YearPrefix(year))| + 1)
  {
    var n := |Store.WithPrefix(NumbersOf(db.rows), YearPrefix(year))| + 1;
    ContractNumberRoundTrip(year, n);
    ContractNumber(year, n)
  }

  /** `create_contract`: insert one row with the generated number; the signature is stored as given.
      The UNIQUE constraint raises when the number is taken. */
  function CreateContract(db: Db, nome: string, nif: string, whatsapp: string, email: string,
                          endereco: string, plano: string, signature: Option<string>, year: nat)
    : (r: Result<(Db, string), Store.DbError>)
    ensures r.Ok? <==> GenerateContractNumber(db, year) !in NumbersOf(db.rows)
    ensures r.Ok? ==>
      var (db', n) := r.value;
      && n == GenerateContractNumber(db, year)
      && db'.rows == db.rows + [Row(db.nextId, n, nome, nif, whatsapp, email, endereco, plano, signature)]
      && db'.nextId > db.nextId
    ensures r.Err? ==> r.error == Store.UniqueViolation(GenerateContractNumber(db, year))
  {
    var n := GenerateContractNumber(db, year);
    if n in NumbersOf(db.rows) then Err(Store.UniqueViolation(n))
    else Ok((Db(db.rows + [Row(db.nextId, n, nome, nif, whatsapp, email, endereco, plano, signature)], db.nextId + 1), n))
  }

  /** A listed row: `get_all_contracts` and `search_contracts` do not select `signature_data`. */
  function Summary(r: Row): Row {
    r.(signature := None)
  }

  /** `get_all_contracts`: the rows read from the newest one back, without signatures. */
  function GetAllContracts(rows: seq<Row>): (r: seq<Row>)
    ensures |r| == |rows|
    ensures forall i :: 0 <= i < |rows| ==> r[i] == Summary(rows[|rows| - 1 - i])
  {
    if |rows| == 0 then []
    else [Summary(rows[|rows| - 1])] + GetAllContracts(rows[..|rows| - 1])
  }

  /** `search_contracts`: the rows whose name is LIKE `%name%`, newest first, without signatures. */
  function SearchContracts(rows: seq<Row>, name: string): (r: seq<Row>)
    ensures |r| <= |rows|
    ensures forall c :: c in r <==> exists i :: 0 <= i < |rows| && Store.NameLike(rows[i].nome, name) && c == Summary(rows[i])
  {
    if |rows| == 0 then []
    else
      var last := rows[|rows| - 1];
      var rest := SearchContracts(rows[..|rows| - 1], name);
      assert forall i :: 0 <= i < |rows| - 1 ==> rows[..|rows| - 1][i] == rows[i];
      (if Store.NameLike(last.nome, name) then [Summary(last)] else []) + rest
  }

  /** The listed rows whose name matches, in order. */
  function Matching(cs: seq<Row>, name: string): (r: seq<Row>)
    ensures |r| <= |cs|
    ensures forall c :: c in r <==> c in cs && Store.NameLike(c.nome, name)
  {
    if |cs| == 0 then []
    else (if Store.NameLike(cs[0].nome, name) then [cs[0]] else []) + Matching(cs[1..], name)
  }

  lemma MatchingCons(c: Row, cs: seq<Row>, name: string)
    ensures Matching([c] + cs, name) == (if Store.NameLike(c.nome, name) then [c] else []) + Matching(cs, name)
  {
    assert ([c] + cs)[1..] == cs;
  }

  /** The search result is the newest-first listing narrowed to matching names, in the same order. */
  lemma {:induction false} SearchIsMatching(rows: seq<Row>, name: string)
    ensures SearchContracts(rows, name) == Matching(GetAllContracts(rows), name)
    decreases |rows|
  {
    if |rows| > 0 {
      var prefix := rows[..|rows| - 1];
      SearchIsMatching(prefix, name);
      assert GetAllContracts(rows) == [Summary(rows[|rows| - 1])] + GetAllContracts(prefix);
      MatchingCons(Summary(rows[|rows| - 1]), GetAllContracts(prefix), name);
    }
  }

  /** An empty search lists every contract. */
  lemma EmptySearchListsAll(rows: seq<Row>)
    ensures forall c :: c in SearchContracts(rows, "") <==> c in GetAllContracts(rows)
  {
    forall i | 0 <= i < |rows|
      ensures Store.NameLike(rows[i].nome, "")
    {
      Store.NameLikeIgnoresCase(rows[i].nome, "");
    }
    forall c | c in GetAllContracts(rows)
      ensures exists i :: 0 <= i < |rows| && c == Summary(rows[i])
    {
      var k :| 0 <= k < |rows| && GetAllContracts(rows)[k] == c;
      assert c == Summary(rows[|rows| - 1 - k]);
    }
    forall i | 0 <= i < |rows|
      ensures Summary(rows[i]) in GetAllContracts(rows)
    {
      assert GetAllContracts(rows)[|rows| - 1 - i] == Summary(rows[i]);
    }
  }

  /** `get_contract_by_number`: the row with that number, signature included, or None. */
  function GetContractByNumber(rows: seq<Row>, n: string): (r: Option<Row>)
    ensures r.None? <==> n !in NumbersOf(rows)
    ensures r.Some? ==> r.value in rows && r.value.number == n
  {
    if |rows| == 0 then None
    else if rows[0].number == n then Some(rows[0])
    else
      assert NumbersOf(rows) == [rows[0].number] + NumbersOf(rows[1..]);
      GetContractByNumber(rows[1..], n)
  }

  // ---------------------------------------------------------------------------
  // The Python table against the TypeScript one
  // ---------------------------------------------------------------------------

  /** The Python view of a TypeScript row: the same columns without status and tags. */
  function FromTs(c: Store.Contract): Row {
    Row(c.id, c.number, c.nome, c.nif, c.whatsapp, c.email, c.endereco, c.plano, c.signature)
  }

  /** A Python table and a TypeScript table holding the same contracts. */
  predicate Mirrors(py: Db, ts: Store.Db) {
    |py.rows| == |ts.contracts| &&
    (forall i :: 0 <= i < |py.rows| ==> py.rows[i] == FromTs(ts.contracts[i])) &&
    py.nextId == ts.nextId
  }

  lemma MirrorsSameNumbers(py: Db, ts: Store.Db)
    requires Mirrors(py, ts)
    ensures NumbersOf(py.rows) == Store.NumbersOf(ts.contracts)
  {
  }

  /** Appending mirrored rows keeps two mirrored tables mirrored. */
  lemma MirrorsAppend(py: Db, ts: Store.Db, c: Store.Contract)
    requires Mirrors(py, ts)
    ensures Mirrors(Db(py.rows + [FromTs(c)], py.nextId + 1),
                    ts.(contracts := ts.contracts + [c], nextId := ts.nextId + 1))
  {
  }

  /** Both implementations generate the same number from mirrored tables, and creating the same
      contract in both succeeds or fails together and keeps them mirrored, except that the
      Python table stores an empty signature as '' where the TypeScript one stores NULL. */
  lemma CreateMirrors(py: Db, ts: Store.Db, input: Store.ContractInput, year: nat)
    requires Mirrors(py, ts)
    requires input.signature != Some("")
    ensures GenerateContractNumber(py, year) == Store.GenerateContractNumber(ts, year)
    ensures var rp := CreateContract(py, input.nome, input.nif, input.whatsapp, input.email, input.endereco, input.plano, input.signature, year);
      var rt := Store.CreateContract(ts, input, year);
      && rp.Ok? == rt.Ok?
      && (rp.Ok? ==> rp.value.1 == rt.value.1 && Mirrors(rp.value.0, rt.value.0))
  {
    MirrorsSameNumbers(py, ts);
    var n := Store.GenerateContractNumber(ts, year);
    assert GenerateContractNumber(py, year) == n;
    if !Store.HasNumber(ts.contracts, n) {
      var row := Store.NewRow(ts.nextId, n, input);
      assert FromTs(row) == Row(py.nextId, n, input.nome, input.nif, input.whatsapp, input.email, input.endereco, input.plano, input.signature);
      MirrorsAppend(py, ts, row);
    }
  }

  /** The one divergence: an empty signature is kept as '' here and dropped to NULL by the TypeScript store. */
  lemma EmptySignatureDiverges(py: Db, ts: Store.Db, input: Store.ContractInput, year: nat)
    requires Mirrors(py, ts) && input.signature == Some("")
    requires Store.CreateContract(ts, input, year).Ok?
    ensures var rp := CreateContract(py, input.nome, input.nif, input.whatsapp, input.email, input.endereco, input.plano, input.signature, year);
      var rt := Store.CreateContract(ts, input, year);
      && rp.Ok?
      && rp.value.0.rows[|py.rows|].signature == Some("")
      && rt.value.0.contracts[|ts.contracts|].signature == None
  {
    MirrorsSameNumbers(py, ts);
  }

  /** The Python listing is, position by position, the TypeScript 'all' listing with the
      status and tags columns dropped. */
  lemma ListingMirrors(py: Db, ts: Store.Db)
    requires Mirrors(py, ts)
    ensures var listed := Store.GetAllContracts(ts.contracts, Store.AllStatuses);
      && |GetAllContracts(py.rows)| == |listed|
      && forall k :: 0 <= k < |listed| ==> GetAllContracts(py.rows)[k] == FromTs(listed[k])
  {
    Store.ListAllNewestFirst(ts.contracts);
  }
}
