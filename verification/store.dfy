/** The contracts table of nodejs/src/lib/database.ts as an abstract table:
    the rows in insertion order, the next AUTOINCREMENT id and the settings
    table. Each exported function of the file is a pure function from the
    table to its result (and the new table, for the writes). */
module Store {
  import opened Results
  import opened Text
  import opened Numbering
  import Settings

  /** The two values the code writes to the `status` column. */
  datatype Status = Active | Archived

  /** A row of `contracts`. `status` is `None` for a NULL column. */
  datatype Contract = Contract(
    id: nat,
    number: string,
    nome: string,
    nif: string,
    whatsapp: string,
    email: string,
    endereco: string,
    plano: string,
    signature: Option<string>,
    status: Option<Status>,
    tags: string)

  /** `ContractInput`. */
  datatype ContractInput = ContractInput(
    nome: string, nif: string, whatsapp: string, email: string, endereco: string, plano: string,
    signature: Option<string>)

  /** The database: contract rows oldest first, the next id, and the settings table. */
  datatype Db = Db(contracts: seq<Contract>, nextId: nat, settings: Settings.Table)

  /** The only failure of a write here: the UNIQUE constraint on `contract_number`. */
  datatype DbError = UniqueViolation(number: string)

  /** The status argument of the listing functions; `AllStatuses` is 'all' or undefined. */
  datatype StatusFilter = OnlyActive | OnlyArchived | AllStatuses

  // ---------------------------------------------------------------------------
  // Contract numbers in the table
  // ---------------------------------------------------------------------------

  /** The `contract_number` column, row by row. */
  function NumbersOf(rows: seq<Contract>): (ns: seq<string>)
    ensures |ns| == |rows| && forall i :: 0 <= i < |rows| ==> ns[i] == rows[i].number
  {
    seq(|rows|, i requires 0 <= i < |rows| => rows[i].number)
  }

  /** Some row carries number `n`. */
  predicate HasNumber(rows: seq<Contract>, n: string) {
    n in NumbersOf(rows)
  }

  /** The numbers that start with `p`, in order. */
  function WithPrefix(ns: seq<string>, p: string): (r: seq<string>)
    ensures |r| <= |ns|
    ensures forall s :: s in r <==> s in ns && StartsWith(s, p)
  {
    if |ns| == 0 then []
    else (if StartsWith(ns[0], p) then [ns[0]] else []) + WithPrefix(ns[1..], p)
  }

  lemma {:induction false} WithPrefixAppend(ns: seq<string>, s: string, p: string)
    ensures WithPrefix(ns + [s], p) == WithPrefix(ns, p) + (if StartsWith(s, p) then [s] else [])
    decreases |ns|
  {
    if |ns| > 0 {
      assert (ns + [s])[1..] == ns[1..] + [s];
      WithPrefixAppend(ns[1..], s, p);
    } else {
      assert ns + [s] == [s];
    }
  }

  /** `SELECT COUNT(*) ... WHERE contract_number LIKE 'CTR-<year>-%'`. */
  function CountForYear(rows: seq<Contract>, year: nat): nat {
    |WithPrefix(NumbersOf(rows), YearPrefix(year))|
  }

  /** `generateContractNumber` for the given year: the year's count plus one, padded to four digits. */
  function GenerateContractNumber(db: Db, year: nat): (r: string)
    ensures StartsWith(r, YearPrefix(year))
    ensures ParseSequence(r, year) == Some(CountForYear(db.contracts, year) + 1)
    ensures CountForYear(db.contracts, year) + 1 < 10000 ==> |r| == |YearPrefix(year)| + 4
  {
    var n := CountForYear(db.contracts, year) + 1;
    ContractNumberRoundTrip(year, n);
    SequenceFormat(n);
    ContractNumber(year, n)
  }

  /** No two rows share a contract number (the UNIQUE column). */
  predicate UniqueNumbers(rows: seq<Contract>) {
    forall i, j :: 0 <= i < j < |rows| ==> rows[i].number != rows[j].number
  }

  /** The year's numbers are exactly 0001, 0002, ... n, in insertion order:
      the state in which count-based numbering yields a fresh number. */
  predicate Dense(rows: seq<Contract>, year: nat) {
    DenseNumbers(NumbersOf(rows), year)
  }

  predicate DenseNumbers(ns: seq<string>, year: nat) {
    var ys := WithPrefix(ns, YearPrefix(year));
    forall j :: 0 <= j < |ys| ==> ys[j] == ContractNumber(year, j + 1)
  }

  // ---------------------------------------------------------------------------
  // Writes
  // ---------------------------------------------------------------------------

  /** The row `createContract` inserts: status 'active', tags '' and NULL for an empty or missing signature. */
  function NewRow(id: nat, number: string, input: ContractInput): Contract {
    Contract(id, number, input.nome, input.nif, input.whatsapp, input.email, input.endereco, input.plano,
             if input.signature == Some("") then None else input.signature,
             Some(Active), "")
  }

  /** `createContract`: generate the number, insert one row, return the number.
      The insert fails when the number is already taken. */
  function CreateContract(db: Db, input: ContractInput, year: nat): (r: Result<(Db, string), DbError>)
    ensures r.Ok? <==> !HasNumber(db.contracts, GenerateContractNumber(db, year))
    ensures r.Err? ==> r.error == UniqueViolation(GenerateContractNumber(db, year))
    ensures r.Ok? ==>
      var (db', n) := r.value;
      && n == GenerateContractNumber(db, year)
      && |db'.contracts| == |db.contracts| + 1
      && db'.contracts[..|db.contracts|] == db.contracts
      && db'.contracts[|db.contracts|] == NewRow(db.nextId, n, input)
      && db'.nextId > db.nextId
      && db'.settings == db.settings
  {
    var n := GenerateContractNumber(db, year);
    if HasNumber(db.contracts, n) then Err(UniqueViolation(n))
    else
      var db' := db.(contracts := db.contracts + [NewRow(db.nextId, n, input)], nextId := db.nextId + 1);
      assert db'.contracts[..|db.contracts|] == db.contracts;
      Ok((db', n))
  }

  /** A column change made by an UPDATE. */
  datatype Change = SetStatus(status: Status) | SetTags(tags: string)

  function Apply(c: Contract, ch: Change): Contract {
    match ch
    case SetStatus(s) => c.(status := Some(s))
    case SetTags(t) => c.(tags := t)
  }

  /** `UPDATE contracts SET ... WHERE contract_number = ?`: the matching rows change, the others stay. */
  function UpdateRows(rows: seq<Contract>, n: string, ch: Change): (r: seq<Contract>)
    ensures |r| == |rows|
    ensures forall i :: 0 <= i < |rows| ==> r[i] == (if rows[i].number == n then Apply(rows[i], ch) else rows[i])
  {
    seq(|rows|, i requires 0 <= i < |rows| => if rows[i].number == n then Apply(rows[i], ch) else rows[i])
  }

  /** An update never changes a contract number. */
  lemma UpdateKeepsNumbers(rows: seq<Contract>, n: string, ch: Change)
    ensures NumbersOf(UpdateRows(rows, n, ch)) == NumbersOf(rows)
  {
  }

  /** `archiveContract`: status becomes 'archived' on the matching row; true iff a row matched,
      so archiving an archived contract again still reports true. */
  function ArchiveContract(db: Db, n: string): (r: (Db, bool))
    ensures r.1 <==> HasNumber(db.contracts, n)
    ensures |r.0.contracts| == |db.contracts|
    ensures forall i :: 0 <= i < |db.contracts| && db.contracts[i].number == n ==>
      r.0.contracts[i] == db.contracts[i].(status := Some(Archived))
    ensures forall i :: 0 <= i < |db.contracts| && db.contracts[i].number != n ==> r.0.contracts[i] == db.contracts[i]
    ensures r.0.nextId == db.nextId && r.0.settings == db.settings
  {
    (db.(contracts := UpdateRows(db.contracts, n, SetStatus(Archived))), HasNumber(db.contracts, n))
  }

  /** `restoreContract`: status becomes 'active' on the matching row; true iff a row matched. */
  function RestoreContract(db: Db, n: string): (r: (Db, bool))
    ensures r.1 <==> HasNumber(db.contracts, n)
    ensures |r.0.contracts| == |db.contracts|
    ensures forall i :: 0 <= i < |db.contracts| && db.contracts[i].number == n ==>
      r.0.contracts[i] == db.contracts[i].(status := Some(Active))
    ensures forall i :: 0 <= i < |db.contracts| && db.contracts[i].number != n ==> r.0.contracts[i] == db.contracts[i]
    ensures r.0.nextId == db.nextId && r.0.settings == db.settings
  {
    (db.(contracts := UpdateRows(db.contracts, n, SetStatus(Active))), HasNumber(db.contracts, n))
  }

  /** `updateContractTags`: the matching row's tags are replaced; true iff a row matched. */
  function UpdateContractTags(db: Db, n: string, tags: string): (r: (Db, bool))
    ensures r.1 <==> HasNumber(db.contracts, n)
    ensures |r.0.contracts| == |db.contracts|
    ensures forall i :: 0 <= i < |db.contracts| && db.contracts[i].number == n ==>
      r.0.contracts[i] == db.contracts[i].(tags := tags)
    ensures forall i :: 0 <= i < |db.contracts| && db.contracts[i].number != n ==> r.0.contracts[i] == db.contracts[i]
    ensures r.0.nextId == db.nextId && r.0.settings == db.settings
  {
    (db.(contracts := UpdateRows(db.contracts, n, SetTags(tags))), HasNumber(db.contracts, n))
  }

  /** The rows whose number is not `n`, in order. */
  function RemoveNumber(rows: seq<Contract>, n: string): (r: seq<Contract>)
    ensures forall c :: c in r <==> c in rows && c.number != n
    ensures !HasNumber(r, n)
    ensures |r| <= |rows|
    ensures !HasNumber(rows, n) ==> r == rows
  {
    if |rows| == 0 then []
    else
      assert NumbersOf(rows) == [rows[0].number] + NumbersOf(rows[1..]);
      (if rows[0].number == n then [] else [rows[0]]) + RemoveNumber(rows[1..], n)
  }

  /** With unique numbers, removing the number of row `i` removes that row alone and keeps the order of the others. */
  lemma {:induction false} RemoveNumberAt(rows: seq<Contract>, i: nat)
    requires UniqueNumbers(rows) && i < |rows|
    ensures RemoveNumber(rows, rows[i].number) == rows[..i] + rows[i + 1..]
    decreases i
  {
    UniqueTail(rows);
    if i == 0 {
      RemoveHead(rows);
    } else {
      var tail := rows[1..];
      assert tail[i - 1] == rows[i];
      RemoveNumberAt(tail, i - 1);
      RemoveKeepsHead(rows, rows[i].number, tail[..i - 1] + tail[i..]);
      ConsSlices(rows, i);
    }
  }

  lemma RemoveHead(rows: seq<Contract>)
    requires |rows| > 0 && !HasNumber(rows[1..], rows[0].number)
    ensures RemoveNumber(rows, rows[0].number) == rows[1..]
  {
  }

  lemma ConsSlices(rows: seq<Contract>, i: nat)
    requires 0 < i < |rows|
    ensures [rows[0]] + (rows[1..][..i - 1] + rows[1..][i..]) == rows[..i] + rows[i + 1..]
  {
    assert rows[..i] == [rows[0]] + rows[1..][..i - 1];
    assert rows[i + 1..] == rows[1..][i..];
  }

  /** The rows after the first have unique numbers, none of them the first row's. */
  lemma UniqueTail(rows: seq<Contract>)
    requires UniqueNumbers(rows) && |rows| > 0
    ensures UniqueNumbers(rows[1..])
    ensures !HasNumber(rows[1..], rows[0].number)
  {
    var tail := rows[1..];
    forall a, b | 0 <= a < b < |tail|
      ensures tail[a].number != tail[b].number
    {
      assert tail[a] == rows[a + 1] && tail[b] == rows[b + 1];
    }
    forall k | 0 <= k < |tail|
      ensures NumbersOf(tail)[k] != rows[0].number
    {
      assert tail[k] == rows[k + 1];
    }
  }

  lemma RemoveKeepsHead(rows: seq<Contract>, n: string, rest: seq<Contract>)
    requires |rows| > 0 && rows[0].number != n && RemoveNumber(rows[1..], n) == rest
    ensures RemoveNumber(rows, n) == [rows[0]] + rest
  {
  }

  /** `deleteContract`: the matching row goes, whatever its status; true iff a row matched.
      The remaining rows keep their order (`RemoveNumberAt`). */
  function DeleteContract(db: Db, n: string): (r: (Db, bool))
    ensures r.1 <==> HasNumber(db.contracts, n)
    ensures forall c :: c in r.0.contracts <==> c in db.contracts && c.number != n
    ensures r.0.nextId == db.nextId && r.0.settings == db.settings
  {
    (db.(contracts := RemoveNumber(db.contracts, n)), HasNumber(db.contracts, n))
  }

  /** Deleting an existing contract from a table with unique numbers removes that row alone,
      keeps the other rows in their order, and reports true. */
  lemma DeleteKeepsOrder(db: Db, i: nat)
    requires UniqueNumbers(db.contracts) && i < |db.contracts|
    ensures DeleteContract(db, db.contracts[i].number)
      == (db.(contracts := db.contracts[..i] + db.contracts[i + 1..]), true)
  {
    RemoveNumberAt(db.contracts, i);
    assert NumbersOf(db.contracts)[i] == db.contracts[i].number;
  }

  // ---------------------------------------------------------------------------
  // Reads
  // ---------------------------------------------------------------------------

  /** The status condition of the listing queries: 'active' also admits a NULL status. */
  predicate Admits(f: StatusFilter, c: Contract) {
    match f
    case OnlyActive => c.status == Some(Active) || c.status.None?
    case OnlyArchived => c.status == Some(Archived)
    case AllStatuses => true
  }

  /** A listed row: the listing queries do not select `signature_data`. */
  function Summary(c: Contract): Contract {
    c.(signature := None)
  }

  /** `getAllContracts`: the admitted rows, newest first, without signatures. */
  function GetAllContracts(rows: seq<Contract>, f: StatusFilter): (r: seq<Contract>)
    ensures |r| <= |rows|
    ensures forall c :: c in r <==> exists i :: 0 <= i < |rows| && Admits(f, rows[i]) && c == Summary(rows[i])
  {
    if |rows| == 0 then []
    else
      var last := rows[|rows| - 1];
      var rest := GetAllContracts(rows[..|rows| - 1], f);
      assert forall i :: 0 <= i < |rows| - 1 ==> rows[..|rows| - 1][i] == rows[i];
      (if Admits(f, last) then [Summary(last)] else []) + rest
  }

  /** `nome LIKE '%name%'`: SQLite's LIKE matches a substring and folds ASCII case. */
  predicate NameLike(nome: string, name: string) {
    Contains(Lower(nome), Lower(name))
  }

  /** The name filter ignores ASCII case on either side. */
  lemma NameLikeIgnoresCase(nome: string, name: string)
    ensures NameLike(Upper(nome), name) <==> NameLike(nome, name)
    ensures NameLike(nome, Upper(name)) <==> NameLike(nome, name)
    ensures NameLike(nome, "")
  {
    LowerOfUpper(nome);
    LowerOfUpper(name);
    assert OccursAt(Lower(nome), Lower(""), 0);
  }

  /** `searchContracts`: like `getAllContracts`, keeping only the rows whose name contains `name`. */
  function SearchContracts(rows: seq<Contract>, name: string, f: StatusFilter): (r: seq<Contract>)
    ensures |r| <= |rows|
    ensures forall c :: c in r <==>
      exists i :: 0 <= i < |rows| && Admits(f, rows[i]) && NameLike(rows[i].nome, name) && c == Summary(rows[i])
  {
    if |rows| == 0 then []
    else
      var last := rows[|rows| - 1];
      var rest := SearchContracts(rows[..|rows| - 1], name, f);
      assert forall i :: 0 <= i < |rows| - 1 ==> rows[..|rows| - 1][i] == rows[i];
      (if Admits(f, last) && NameLike(last.nome, name) then [Summary(last)] else []) + rest
  }

  /** The contracts of `cs` the filter admits and, for a search, whose name matches, in order. */
  function Select(cs: seq<Contract>, f: StatusFilter, name: Option<string>): (r: seq<Contract>)
    ensures |r| <= |cs|
    ensures forall c :: c in r <==> c in cs && Admits(f, c) && (name.Some? ==> NameLike(c.nome, name.value))
  {
    if |cs| == 0 then []
    else
      var keep := Admits(f, cs[0]) && (name.Some? ==> NameLike(cs[0].nome, name.value));
      (if keep then [cs[0]] else []) + Select(cs[1..], f, name)
  }

  /** The unfiltered listing of a non-empty table: the newest row, then the listing of the older ones. */
  lemma ListAllCons(rows: seq<Contract>)
    requires |rows| > 0
    ensures GetAllContracts(rows, AllStatuses) == [Summary(rows[|rows| - 1])] + GetAllContracts(rows[..|rows| - 1], AllStatuses)
  {
  }

  lemma SelectCons(c: Contract, cs: seq<Contract>, f: StatusFilter, name: Option<string>)
    ensures Select([c] + cs, f, name)
      == (if Admits(f, c) && (name.Some? ==> NameLike(c.nome, name.value)) then [c] else []) + Select(cs, f, name)
  {
    assert ([c] + cs)[1..] == cs;
  }

  /** Every filtered listing is the newest-first listing narrowed to the admitted rows, in the same order. */
  lemma {:induction false} ListingIsSelection(rows: seq<Contract>, f: StatusFilter)
    ensures GetAllContracts(rows, f) == Select(GetAllContracts(rows, AllStatuses), f, None)
    decreases |rows|
  {
    if |rows| > 0 {
      var last := rows[|rows| - 1];
      ListingIsSelection(rows[..|rows| - 1], f);
      ListAllCons(rows);
      SelectCons(Summary(last), GetAllContracts(rows[..|rows| - 1], AllStatuses), f, None);
    }
  }

  /** Every search result is the newest-first listing narrowed to the admitted, matching rows, in the same order. */
  lemma {:induction false} SearchIsSelection(rows: seq<Contract>, name: string, f: StatusFilter)
    ensures SearchContracts(rows, name, f) == Select(GetAllContracts(rows, AllStatuses), f, Some(name))
    decreases |rows|
  {
    if |rows| > 0 {
      var last := rows[|rows| - 1];
      SearchIsSelection(rows[..|rows| - 1], name, f);
      ListAllCons(rows);
      SelectCons(Summary(last), GetAllContracts(rows[..|rows| - 1], AllStatuses), f, Some(name));
    }
  }

  /** Without a status filter every row is listed, newest first. */
  lemma {:induction false} ListAllNewestFirst(rows: seq<Contract>)
    ensures |GetAllContracts(rows, AllStatuses)| == |rows|
    ensures forall i :: 0 <= i < |rows| ==> GetAllContracts(rows, AllStatuses)[i] == Summary(rows[|rows| - 1 - i])
    decreases |rows|
  {
    if |rows| > 0 {
      ListAllNewestFirst(rows[..|rows| - 1]);
    }
  }

  /** The search result is the listing narrowed to matching names. */
  lemma SearchNarrowsListing(rows: seq<Contract>, name: string, f: StatusFilter)
    ensures forall c :: c in SearchContracts(rows, name, f) <==> c in GetAllContracts(rows, f) && NameLike(c.nome, name)
  {
  }

  /** `getContractByNumber`: the row with that number, signature included, or null. */
  function GetContractByNumber(rows: seq<Contract>, n: string): (r: Option<Contract>)
    ensures r.None? <==> !HasNumber(rows, n)
    ensures r.Some? ==> r.value in rows && r.value.number == n
  {
    if |rows| == 0 then None
    else if rows[0].number == n then Some(rows[0])
    else
      assert NumbersOf(rows) == [rows[0].number] + NumbersOf(rows[1..]);
      GetContractByNumber(rows[1..], n)
  }

  // ---------------------------------------------------------------------------
  // Properties across operations
  // ---------------------------------------------------------------------------

  /** A created contract is listed first among active and all contracts, with status 'active' and no tags. */
  lemma CreatedIsListedFirst(db: Db, input: ContractInput, year: nat)
    requires CreateContract(db, input, year).Ok?
    ensures var (db', n) := CreateContract(db, input, year).value;
      && GetAllContracts(db'.contracts, AllStatuses)[0] == Summary(NewRow(db.nextId, n, input))
      && GetAllContracts(db'.contracts, OnlyActive)[0] == Summary(NewRow(db.nextId, n, input))
      && GetContractByNumber(db'.contracts, n).Some?
  {
    var (db', n) := CreateContract(db, input, year).value;
    assert HasNumber(db'.contracts, n) by {
      assert NumbersOf(db'.contracts)[|db.contracts|] == n;
    }
  }

  /** Archiving takes a contract out of the active listing and into the archived one. */
  lemma ArchiveMovesBetweenListings(db: Db, n: string, c: Contract)
    requires c in db.contracts && c.number == n
    ensures var db' := ArchiveContract(db, n).0;
      var archived := Summary(c.(status := Some(Archived)));
      && archived in GetAllContracts(db'.contracts, OnlyArchived)
      && (forall x :: x in GetAllContracts(db'.contracts, OnlyActive) ==> x.number != n)
  {
    var db' := ArchiveContract(db, n).0;
    var i :| 0 <= i < |db.contracts| && db.contracts[i] == c;
    assert db'.contracts[i] == c.(status := Some(Archived));
  }

  /** Archiving twice reports success both times and leaves the same table as archiving once. */
  lemma ArchiveIdempotent(db: Db, n: string)
    requires HasNumber(db.contracts, n)
    ensures var (db1, b1) := ArchiveContract(db, n);
      var (db2, b2) := ArchiveContract(db1, n);
      b1 && b2 && db2 == db1
  {
    var db1 := ArchiveContract(db, n).0;
    UpdateKeepsNumbers(db.contracts, n, SetStatus(Archived));
    assert ArchiveContract(db1, n).0.contracts == db1.contracts;
  }

  /** Restoring takes a contract out of the archived listing and into the active one. */
  lemma RestoreMovesBetweenListings(db: Db, n: string, c: Contract)
    requires c in db.contracts && c.number == n
    ensures var db' := RestoreContract(db, n).0;
      var restored := Summary(c.(status := Some(Active)));
      && restored in GetAllContracts(db'.contracts, OnlyActive)
      && (forall x :: x in GetAllContracts(db'.contracts, OnlyArchived) ==> x.number != n)
  {
    var db' := RestoreContract(db, n).0;
    var i :| 0 <= i < |db.contracts| && db.contracts[i] == c;
    assert db'.contracts[i] == c.(status := Some(Active));
  }

  /** Archiving and then restoring is restoring: a row that was active comes back unchanged,
      and a row with a NULL status comes back as 'active'. */
  lemma ArchiveThenRestore(db: Db, n: string)
    ensures RestoreContract(ArchiveContract(db, n).0, n) == RestoreContract(db, n)
    ensures var rows := RestoreContract(ArchiveContract(db, n).0, n).0.contracts;
      forall i :: 0 <= i < |db.contracts| && db.contracts[i].status == Some(Active) ==> rows[i] == db.contracts[i]
    ensures var rows := RestoreContract(ArchiveContract(db, n).0, n).0.contracts;
      forall i :: 0 <= i < |db.contracts| && db.contracts[i].number == n ==> rows[i].status == Some(Active)
  {
    var db1 := ArchiveContract(db, n).0;
    UpdateKeepsNumbers(db.contracts, n, SetStatus(Archived));
    assert NumbersOf(db1.contracts) == NumbersOf(db.contracts);
    assert RestoreContract(db1, n).0.contracts == RestoreContract(db, n).0.contracts;
  }

  /** After deletion the number is gone: `getContractByNumber` returns null. */
  lemma DeleteThenGet(db: Db, n: string)
    ensures GetContractByNumber(DeleteContract(db, n).0.contracts, n).None?
  {
  }

  /** In a dense year, the next count-based number is not among the numbers. */
  lemma DenseNextIsFresh(ns: seq<string>, year: nat)
    requires DenseNumbers(ns, year)
    ensures ContractNumber(year, |WithPrefix(ns, YearPrefix(year))| + 1) !in ns
  {
    var ys := WithPrefix(ns, YearPrefix(year));
    var next := ContractNumber(year, |ys| + 1);
    forall j | 0 <= j < |ys|
      ensures ys[j] != next
    {
      NumbersDiffer(year, j + 1, |ys| + 1);
    }
    ContractNumberRoundTrip(year, |ys| + 1);
  }

  /** When the year is dense, the generated number is not in use, so the insert succeeds. */
  lemma DenseMeansFresh(db: Db, input: ContractInput, year: nat)
    requires Dense(db.contracts, year)
    ensures !HasNumber(db.contracts, GenerateContractNumber(db, year))
    ensures CreateContract(db, input, year).Ok?
  {
    DenseNextIsFresh(NumbersOf(db.contracts), year);
  }

  /** Different sequence numbers give different contract numbers. */
  lemma NumbersDiffer(year: nat, a: nat, b: nat)
    requires a != b
    ensures ContractNumber(year, a) != ContractNumber(year, b)
  {
    ContractNumberRoundTrip(year, a);
    ContractNumberRoundTrip(year, b);
  }

  lemma NumbersOfAppend(rows: seq<Contract>, c: Contract)
    ensures NumbersOf(rows + [c]) == NumbersOf(rows) + [c.number]
  {
    assert forall i :: 0 <= i < |rows| ==> (rows + [c])[i] == rows[i];
  }

  /** Appending the next number of `year` keeps every dense year dense. */
  lemma DenseAppend(ns: seq<string>, year: nat, y: nat)
    requires DenseNumbers(ns, y)
    ensures DenseNumbers(ns + [ContractNumber(year, |WithPrefix(ns, YearPrefix(year))| + 1)], y)
  {
    if y == year {
      DenseAppendSameYear(ns, y);
    } else {
      var m := |WithPrefix(ns, YearPrefix(year))| + 1;
      ContractNumberYear(year, y, m);
      DenseAppendOtherYear(ns, ContractNumber(year, m), y);
    }
  }

  /** A year's next number extends that year's run. */
  lemma DenseAppendSameYear(ns: seq<string>, y: nat)
    requires DenseNumbers(ns, y)
    ensures DenseNumbers(ns + [ContractNumber(y, |WithPrefix(ns, YearPrefix(y))| + 1)], y)
  {
    var ys := WithPrefix(ns, YearPrefix(y));
    var n := ContractNumber(y, |ys| + 1);
    ContractNumberRoundTrip(y, |ys| + 1);
    WithPrefixAppend(ns, n, YearPrefix(y));
    RunExtends(ys, y, n);
  }

  /** The numbers 1..k of a year followed by number k + 1 are the numbers 1..k + 1. */
  lemma RunExtends(ys: seq<string>, y: nat, n: string)
    requires forall j :: 0 <= j < |ys| ==> ys[j] == ContractNumber(y, j + 1)
    requires n == ContractNumber(y, |ys| + 1)
    ensures forall j :: 0 <= j < |ys| + 1 ==> (ys + [n])[j] == ContractNumber(y, j + 1)
  {
  }

  /** A number without the year's prefix leaves that year's run alone. */
  lemma DenseAppendOtherYear(ns: seq<string>, n: string, y: nat)
    requires DenseNumbers(ns, y) && !StartsWith(n, YearPrefix(y))
    ensures DenseNumbers(ns + [n], y)
  {
    WithPrefixAppend(ns, n, YearPrefix(y));
  }

  /** Creating a contract keeps every year dense that was dense before. */
  lemma CreatePreservesDense(db: Db, input: ContractInput, year: nat, y: nat)
    requires Dense(db.contracts, y)
    requires CreateContract(db, input, year).Ok?
    ensures Dense(CreateContract(db, input, year).value.0.contracts, y)
  {
    var (db', n) := CreateContract(db, input, year).value;
    assert db'.contracts == db.contracts + [NewRow(db.nextId, n, input)];
    NumbersOfAppend(db.contracts, NewRow(db.nextId, n, input));
    DenseAppend(NumbersOf(db.contracts), year, y);
  }

  /** Appending a row with an unused number keeps numbers unique. */
  lemma UniqueAppend(rows: seq<Contract>, c: Contract)
    requires UniqueNumbers(rows) && !HasNumber(rows, c.number)
    ensures UniqueNumbers(rows + [c])
  {
    forall i | 0 <= i < |rows|
      ensures rows[i].number != c.number
    {
      assert NumbersOf(rows)[i] == rows[i].number;
    }
  }

  /** Creating a contract keeps contract numbers unique. */
  lemma CreatePreservesUnique(db: Db, input: ContractInput, year: nat)
    requires UniqueNumbers(db.contracts)
    requires CreateContract(db, input, year).Ok?
    ensures UniqueNumbers(CreateContract(db, input, year).value.0.contracts)
  {
    var (db', n) := CreateContract(db, input, year).value;
    assert db'.contracts == db.contracts + [NewRow(db.nextId, n, input)];
    UniqueAppend(db.contracts, NewRow(db.nextId, n, input));
  }

  /** The first contract of a year on an empty table gets sequence number 1. */
  lemma CreateFirst(year: nat, a: ContractInput, settings: Settings.Table)
    ensures CreateContract(Db([], 1, settings), a, year)
      == Ok((Db([NewRow(1, ContractNumber(year, 1), a)], 2, settings), ContractNumber(year, 1)))
  {
    var db0 := Db([], 1, settings);
    assert CountForYear(db0.contracts, year) == 0;
    assert !HasNumber(db0.contracts, ContractNumber(year, 1));
  }

  /** A single row whose number has the year's prefix is the year's only number. */
  lemma SingleRowOfYear(r: Contract, year: nat)
    requires StartsWith(r.number, YearPrefix(year))
    ensures NumbersOf([r]) == [r.number]
    ensures WithPrefix(NumbersOf([r]), YearPrefix(year)) == [r.number]
    ensures CountForYear([r], year) == 1
  {
    assert NumbersOf([r]) == [r.number];
    assert [r.number][1..] == [];
  }

  /** Removing the first row's number from two rows with different numbers keeps the second. */
  lemma RemoveFirstOfTwo(r1: Contract, r2: Contract)
    requires r1.number != r2.number
    ensures HasNumber([r1, r2], r1.number)
    ensures RemoveNumber([r1, r2], r1.number) == [r2]
  {
    var rows := [r1, r2];
    assert NumbersOf(rows)[0] == r1.number;
    assert rows[1..] == [r2] && [r2][1..] == [];
  }

  /** The second contract of the year gets sequence number 2. */
  lemma CreateSecond(year: nat, a: ContractInput, b: ContractInput, settings: Settings.Table)
    ensures var db1 := Db([NewRow(1, ContractNumber(year, 1), a)], 2, settings);
      CreateContract(db1, b, year)
      == Ok((Db([NewRow(1, ContractNumber(year, 1), a), NewRow(2, ContractNumber(year, 2), b)], 3, settings),
             ContractNumber(year, 2)))
  {
    var n1 := ContractNumber(year, 1);
    var n2 := ContractNumber(year, 2);
    var row1 := NewRow(1, n1, a);
    ContractNumberRoundTrip(year, 1);
    SingleRowOfYear(row1, year);
    NumbersDiffer(year, 1, 2);
    assert !HasNumber([row1], n2);
    assert [row1] + [NewRow(2, n2, b)] == [row1, NewRow(2, n2, b)];
  }

  /** Deleting the first of the two leaves the second alone. */
  lemma DeleteFirst(year: nat, a: ContractInput, b: ContractInput, settings: Settings.Table)
    ensures var n1 := ContractNumber(year, 1);
      var n2 := ContractNumber(year, 2);
      DeleteContract(Db([NewRow(1, n1, a), NewRow(2, n2, b)], 3, settings), n1)
      == (Db([NewRow(2, n2, b)], 3, settings), true)
  {
    NumbersDiffer(year, 1, 2);
    RemoveFirstOfTwo(NewRow(1, ContractNumber(year, 1), a), NewRow(2, ContractNumber(year, 2), b));
  }

  /** With only the year's second number left, the count-based number is that number again. */
  lemma CreateAfterDelete(year: nat, b: ContractInput, c: ContractInput, settings: Settings.Table)
    ensures var n2 := ContractNumber(year, 2);
      var db3 := Db([NewRow(2, n2, b)], 3, settings);
      !Dense(db3.contracts, year) && CreateContract(db3, c, year) == Err(UniqueViolation(n2))
  {
    var n2 := ContractNumber(year, 2);
    var row2 := NewRow(2, n2, b);
    ContractNumberRoundTrip(year, 2);
    NumbersDiffer(year, 1, 2);
    SingleRowOfYear(row2, year);
    assert HasNumber([row2], n2);
  }

  /** Deleting a contract can break density, and then numbering collides:
      on a fresh table, create two contracts of a year, delete the first, and
      the next creation generates the second's number again and the insert fails. */
  lemma DeleteBreaksNumbering(year: nat, a: ContractInput, b: ContractInput, c: ContractInput, settings: Settings.Table)
    ensures var db0 := Db([], 1, settings);
      CreateContract(db0, a, year).Ok? &&
      var (db1, n1) := CreateContract(db0, a, year).value;
      n1 == ContractNumber(year, 1) &&
      CreateContract(db1, b, year).Ok? &&
      var (db2, n2) := CreateContract(db1, b, year).value;
      n2 == ContractNumber(year, 2) &&
      var (db3, deleted) := DeleteContract(db2, n1);
      deleted && !Dense(db3.contracts, year) &&
      CreateContract(db3, c, year) == Err(UniqueViolation(n2))
  {
    CreateFirst(year, a, settings);
    CreateSecond(year, a, b, settings);
    DeleteFirst(year, a, b, settings);
    CreateAfterDelete(year, b, c, settings);
  }
}
