/** `getAllTags` (nodejs/src/lib/database.ts): every tag used on any contract,
    trimmed, without empties or duplicates, in sorted order. */
module Tags {
  import opened Text
  import Store

  /** JavaScript's `trim()`. */
  function JsTrim(s: string): string {
    Trim(s, IsJsSpace)
  }

  /** The tags written in one `tags` column: the comma-separated pieces, trimmed, without the empty ones. */
  function TagsOf(s: string): (r: seq<string>)
    ensures forall t :: t in r ==> t != "" && exists f :: f in Split(s, ',') && t == JsTrim(f)
    ensures forall f :: f in Split(s, ',') && JsTrim(f) != "" ==> JsTrim(f) in r
  {
    NonEmpty(TrimAll(Split(s, ',')))
  }

  function TrimAll(fields: seq<string>): (r: seq<string>)
    ensures |r| == |fields| && forall k :: 0 <= k < |fields| ==> r[k] == JsTrim(fields[k])
    ensures forall f :: f in fields ==> JsTrim(f) in r
  {
    seq(|fields|, k requires 0 <= k < |fields| => JsTrim(fields[k]))
  }

  /** The non-empty strings, in order (`if (trimmed)`). */
  function NonEmpty(xs: seq<string>): (r: seq<string>)
    ensures forall t :: t in r <==> t in xs && t != ""
  {
    if |xs| == 0 then []
    else (if xs[0] != "" then [xs[0]] else []) + NonEmpty(xs[1..])
  }

  /** Every collected tag is already trimmed and non-empty. */
  lemma TagsAreTrimmed(s: string, t: string)
    requires t in TagsOf(s)
    ensures t != "" && JsTrim(t) == t
  {
    var f :| f in Split(s, ',') && t == JsTrim(f);
    TrimIdempotent(f, IsJsSpace);
  }

  /** An empty column holds no tags, so the query's `tags != ''` condition changes nothing. */
  lemma EmptyColumnHasNoTags()
    ensures TagsOf("") == []
  {
    assert Split("", ',') == [""];
    assert JsTrim("") == "";
  }

  /** Strictly increasing: sorted and without repetitions. */
  predicate StrictlySorted(xs: seq<string>) {
    forall i, j :: 0 <= i < j < |xs| ==> Less(xs[i], xs[j])
  }

  /** Adding one element to a strictly sorted set of tags (the `Set.add` followed by the final `sort`). */
  function Insert(xs: seq<string>, t: string): (r: seq<string>)
    requires StrictlySorted(xs)
    ensures StrictlySorted(r)
    ensures forall u :: u in r <==> u in xs || u == t
  {
    if |xs| == 0 then [t]
    else if t == xs[0] then xs
    else if Less(t, xs[0]) then
      assert forall j :: 0 <= j < |xs| ==> Less(t, xs[j]) by {
        forall j | 0 < j < |xs|
          ensures Less(t, xs[j])
        {
          LessTransitive(t, xs[0], xs[j]);
        }
      }
      [t] + xs
    else
      LessTotal(t, xs[0]);
      var rest := Insert(xs[1..], t);
      assert forall u :: u in rest ==> Less(xs[0], u);
      [xs[0]] + rest
  }

  /** All the given tags added, one by one. */
  function InsertAll(acc: seq<string>, ts: seq<string>): (r: seq<string>)
    requires StrictlySorted(acc)
    ensures StrictlySorted(r)
    ensures forall u :: u in r <==> u in acc || u in ts
    decreases |ts|
  {
    if |ts| == 0 then acc else InsertAll(Insert(acc, ts[0]), ts[1..])
  }

  /** The `tags` values the query returns: the non-empty columns, each distinct value once, in row order. */
  function DistinctColumns(rows: seq<Store.Contract>): (r: seq<string>)
    ensures forall s :: s in r <==> s != "" && exists i :: 0 <= i < |rows| && rows[i].tags == s
    ensures forall i, j :: 0 <= i < j < |r| ==> r[i] != r[j]
  {
    if |rows| == 0 then []
    else
      var last := rows[|rows| - 1];
      var prefix := rows[..|rows| - 1];
      var rest := DistinctColumns(prefix);
      assert forall i :: 0 <= i < |rows| - 1 ==> prefix[i] == rows[i];
      if last.tags == "" || last.tags in rest then rest else rest + [last.tags]
  }

  /** `t` is one of the tags written in some column. */
  predicate InSomeColumn(t: string, columns: seq<string>) {
    exists k :: 0 <= k < |columns| && t in TagsOf(columns[k])
  }

  /** `t` is one of the tags of some row. */
  predicate TagOfSomeRow(t: string, rows: seq<Store.Contract>) {
    exists i :: 0 <= i < |rows| && t in TagsOf(rows[i].tags)
  }

  lemma InSomeColumnCons(t: string, columns: seq<string>)
    requires |columns| > 0
    ensures InSomeColumn(t, columns) <==> t in TagsOf(columns[0]) || InSomeColumn(t, columns[1..])
  {
    if InSomeColumn(t, columns) {
      var k :| 0 <= k < |columns| && t in TagsOf(columns[k]);
      if k > 0 {
        assert columns[1..][k - 1] == columns[k];
      }
    }
    if InSomeColumn(t, columns[1..]) {
      var k :| 0 <= k < |columns| - 1 && t in TagsOf(columns[1..][k]);
      assert columns[k + 1] == columns[1..][k];
    }
  }

  /** Collecting the tags of each column in turn. */
  function CollectTags(acc: seq<string>, columns: seq<string>): (r: seq<string>)
    requires StrictlySorted(acc)
    ensures StrictlySorted(r)
    ensures forall u :: u in r <==> u in acc || InSomeColumn(u, columns)
    decreases |columns|
  {
    if |columns| == 0 then acc
    else
      var r := CollectTags(InsertAll(acc, TagsOf(columns[0])), columns[1..]);
      assert forall u :: InSomeColumn(u, columns) <==> u in TagsOf(columns[0]) || InSomeColumn(u, columns[1..]) by {
        forall u {
          InSomeColumnCons(u, columns);
        }
      }
      r
  }

  /** A non-empty column of any row is one of the distinct columns. */
  lemma RowColumnListed(rows: seq<Store.Contract>, i: nat)
    requires i < |rows| && rows[i].tags != ""
    ensures rows[i].tags in DistinctColumns(rows)
  {
  }

  /** A row's tags are among the tags of the distinct non-empty columns, and conversely. */
  lemma ColumnsCoverRows(rows: seq<Store.Contract>, t: string)
    ensures InSomeColumn(t, DistinctColumns(rows)) <==> TagOfSomeRow(t, rows)
  {
    var columns := DistinctColumns(rows);
    if TagOfSomeRow(t, rows) {
      var i :| 0 <= i < |rows| && t in TagsOf(rows[i].tags);
      EmptyColumnHasNoTags();
      RowColumnListed(rows, i);
      var k :| 0 <= k < |columns| && columns[k] == rows[i].tags;
    }
    if InSomeColumn(t, columns) {
      var k :| 0 <= k < |columns| && t in TagsOf(columns[k]);
      assert columns[k] in columns;
      var i :| 0 <= i < |rows| && rows[i].tags == columns[k];
    }
  }

  /** `getAllTags`. */
  function GetAllTags(rows: seq<Store.Contract>): (r: seq<string>)
    ensures StrictlySorted(r)
    ensures forall t :: t in r <==> TagOfSomeRow(t, rows)
  {
    var r := CollectTags([], DistinctColumns(rows));
    assert forall t :: t in r <==> TagOfSomeRow(t, rows) by {
      forall t {
        ColumnsCoverRows(rows, t);
      }
    }
    r
  }

  /** Every listed tag is trimmed and non-empty. */
  lemma AllTagsTrimmed(rows: seq<Store.Contract>, t: string)
    requires t in GetAllTags(rows)
    ensures t != "" && JsTrim(t) == t
  {
    var i :| 0 <= i < |rows| && t in TagsOf(rows[i].tags);
    TagsAreTrimmed(rows[i].tags, t);
  }

  /** Two strictly sorted sequences with the same elements are the same sequence. */
  lemma {:induction false} StrictlySortedUnique(xs: seq<string>, ys: seq<string>)
    requires StrictlySorted(xs) && StrictlySorted(ys)
    requires forall u :: u in xs <==> u in ys
    ensures xs == ys
    decreases |xs|
  {
    if |xs| > 0 {
      assert xs[0] in ys;
    }
    if |ys| > 0 {
      assert ys[0] in xs;
    }
    if |xs| > 0 && |ys| > 0 {
      var j :| 0 <= j < |ys| && ys[j] == xs[0];
      var k :| 0 <= k < |xs| && xs[k] == ys[0];
      SmallestFirst(xs, k);
      SmallestFirst(ys, j);
      if xs[0] != ys[0] {
        LessAsymmetric(xs[0], ys[0]);
      }
      forall u
        ensures u in xs[1..] <==> u in ys[1..]
      {
        TailMembers(xs, u);
        TailMembers(ys, u);
      }
      StrictlySortedUnique(xs[1..], ys[1..]);
      assert xs == [xs[0]] + xs[1..];
      assert ys == [ys[0]] + ys[1..];
    }
  }

  lemma SmallestFirst(xs: seq<string>, k: nat)
    requires StrictlySorted(xs) && k < |xs|
    ensures k == 0 || Less(xs[0], xs[k])
  {
  }

  /** In a strictly sorted sequence, the tail holds exactly the elements other than the head. */
  lemma TailMembers(xs: seq<string>, u: string)
    requires StrictlySorted(xs) && |xs| > 0
    ensures u in xs[1..] <==> u in xs && u != xs[0]
  {
    if u in xs[1..] {
      var j :| 0 <= j < |xs| - 1 && xs[1..][j] == u;
      assert Less(xs[0], xs[j + 1]);
      LessIrreflexive(xs[0]);
    }
    if u in xs && u != xs[0] {
      var j :| 0 <= j < |xs| && xs[j] == u;
      assert xs[1..][j - 1] == u;
    }
  }

  /** The result depends only on which tags occur: reordering the rows or adding a row
      whose tags already occur leaves it unchanged. */
  lemma TagsDependOnlyOnOccurrence(a: seq<Store.Contract>, b: seq<Store.Contract>)
    requires forall t :: TagOfSomeRow(t, a) <==> TagOfSomeRow(t, b)
    ensures GetAllTags(a) == GetAllTags(b)
  {
    StrictlySortedUnique(GetAllTags(a), GetAllTags(b));
  }

  /** A single tag without commas comes back as itself. */
  lemma SingleTag(t: string)
    requires ',' !in t && t != "" && JsTrim(t) == t
    ensures TagsOf(t) == [t]
  {
    SplitFieldCount(t, ',');
    JoinSplit(t, ',');
    assert Split(t, ',') == [t];
    assert TrimAll([t]) == [t];
    assert NonEmpty([t]) == [t] + NonEmpty([]);
  }

  /** After tagging an existing contract with one trimmed tag, that tag is listed. */
  lemma TaggedContractListed(db: Store.Db, n: string, t: string)
    requires Store.HasNumber(db.contracts, n)
    requires ',' !in t && t != "" && JsTrim(t) == t
    ensures t in GetAllTags(Store.UpdateContractTags(db, n, t).0.contracts)
  {
    var rows := Store.UpdateContractTags(db, n, t).0.contracts;
    var i :| 0 <= i < |db.contracts| && Store.NumbersOf(db.contracts)[i] == n;
    assert rows[i].tags == t;
    SingleTag(t);
    assert t in TagsOf(rows[i].tags);
  }
}
