/** The DC2 truth catalog reader: it reads a SQLite table `truth` and
    builds its queries as text. The connection, the cursor and the
    `PRAGMA` listing of the table's columns are left out; the column
    descriptions the database holds are an input list of rows. */
module Dc2Truth {
  import opened Wrappers
  import opened Strings
  import opened OrderedMaps

  /** The `native_filters` argument: `None`, a single filter string, or a
      list or tuple of filter strings. */
  datatype NativeFilters = NoFilters | Single(filter: string) | Filters(list: seq<string>)

  const FromTruth := " FROM truth"

  const WhereWord := " WHERE "

  /** The filters to join: a value that is neither a list nor a tuple is
      wrapped in a list. */
  function FilterList(nf: NativeFilters): seq<string>
    requires !nf.NoFilters?
  {
    match nf
    case Single(f) => [f]
    case Filters(fs) => fs
  }

  /** The `FROM ... WHERE ...` part of every query: the filters joined by
      ` AND ` with no parentheses around them. */
  function WhereClause(nf: NativeFilters): (r: string)
    ensures StartsWith(r, FromTruth)
    ensures nf.NoFilters? <==> r == FromTruth
    ensures !nf.NoFilters? ==> StartsWith(r, FromTruth + WhereWord)
  {
    if nf.NoFilters? then FromTruth
    else
      var r := FromTruth + WhereWord + Join(FilterList(nf), " AND ");
      assert r[..|FromTruth + WhereWord|] == FromTruth + WhereWord;
      assert r[..|FromTruth|] == FromTruth;
      r
  }

  /** A single filter string behaves as a one-element list. */
  lemma SingleWrapped(f: string)
    ensures WhereClause(Single(f)) == WhereClause(Filters([f]))
    ensures WhereClause(Single(f)) == FromTruth + WhereWord + f
  {
  }

  /** An empty list leaves a `WHERE` with no condition after it. */
  lemma EmptyListDangles()
    ensures WhereClause(Filters([])) == FromTruth + WhereWord
  {
  }

  /** Two filters are joined by a bare `AND`. */
  lemma TwoFiltersJoined(a: string, b: string)
    ensures WhereClause(Filters([a, b])) == FromTruth + WhereWord + a + " AND " + b
  {
    JoinPair(a, b, " AND ");
  }

  /** Every filter appears in the clause. */
  lemma WhereNamesEach(nf: NativeFilters, k: nat)
    requires !nf.NoFilters? && k < |FilterList(nf)|
    ensures Contains(WhereClause(nf), FilterList(nf)[k])
  {
    var fs := FilterList(nf);
    var j := Join(fs, " AND ");
    JoinContains(fs, " AND ", k);
    var i :| 0 <= i <= |j| - |fs[k]| && OccursAt(j, fs[k], i);
    var s := WhereClause(nf);
    var d := |FromTruth + WhereWord|;
    assert s[d + i..d + i + |fs[k]|] == j[i..i + |fs[k]|];
    assert OccursAt(s, fs[k], d + i);
  }

  /** `'SELECT {} {}'.format(', '.join(columns), clause)`. */
  function Query(columns: seq<string>, clause: string): (q: string)
    ensures StartsWith(q, "SELECT ") && EndsWith(q, " " + clause)
  {
    var head := "SELECT " + Join(columns, ", ");
    assert (head + " " + clause)[..7] == "SELECT ";
    assert (head + " " + clause)[|head|..] == " " + clause;
    head + " " + clause
  }

  /** Without filters the query ends in two spaces and `FROM truth`, since
      the clause brings its own leading space. */
  lemma QueryUnfiltered(columns: seq<string>)
    ensures Query(columns, WhereClause(NoFilters)) == "SELECT " + Join(columns, ", ") + "  FROM truth"
  {
  }

  /** Every requested column appears in the query. */
  lemma QueryNamesEach(columns: seq<string>, clause: string, k: nat)
    requires k < |columns|
    ensures Contains(Query(columns, clause), columns[k])
  {
    var j := Join(columns, ", ");
    JoinContains(columns, ", ", k);
    var i :| 0 <= i <= |j| - |columns[k]| && OccursAt(j, columns[k], i);
    var s := Query(columns, clause);
    assert s[7 + i..7 + i + |columns[k]|] == j[i..i + |columns[k]|];
    assert OccursAt(s, columns[k], 7 + i);
  }

  /** `_load_quantities`: `dict(zip(natives, getter(natives)))`, the native
      names paired position by position with the columns the query returns. */
  function NativeData<V>(natives: seq<string>, columns: seq<V>): map<string, V> {
    DictZip(natives, columns).m
  }

  /** With one column per native name and no name repeated, each name holds
      the column at its own position. */
  lemma NativeDataPositional<V>(natives: seq<string>, columns: seq<V>)
    requires |natives| == |columns|
    requires forall i, j :: 0 <= i < j < |natives| ==> natives[i] != natives[j]
    ensures forall i :: 0 <= i < |natives| ==>
      natives[i] in NativeData(natives, columns) && NativeData(natives, columns)[natives[i]] == columns[i]
    ensures forall n :: n in NativeData(natives, columns) ==> n in natives
  {
    DictZipPositional(natives, columns);
  }

  /** The quantity-info dictionary `{'description': d}`. */
  datatype Info = Description(text: string)

  /** `dict(metadata)` over the `(name, description)` rows of the table
      `column_descriptions`. */
  function Descriptions(rows: seq<(string, string)>): map<string, string> {
    PutAll(rows, First, Second).m
  }

  /** `_get_quantity_info_dict`: the description of a described column,
      otherwise the caller's default. */
  function QuantityInfo(rows: seq<(string, string)>, quantity: string, default: Option<Info>): (r: Option<Info>)
    ensures quantity in Descriptions(rows) ==> r == Some(Description(Descriptions(rows)[quantity]))
    ensures quantity !in Descriptions(rows) ==> r == default
  {
    var d := Descriptions(rows);
    if quantity in d then Some(Description(d[quantity])) else default
  }

  /** A quantity is described exactly when some row names it, and then by
      the last row that names it. */
  lemma QuantityInfoRows(rows: seq<(string, string)>, quantity: string, default: Option<Info>)
    ensures (exists i :: 0 <= i < |rows| && rows[i].0 == quantity) ==>
      QuantityInfo(rows, quantity, default) == Some(Description(rows[LastRow(rows, quantity)].1))
    ensures (forall i :: 0 <= i < |rows| ==> rows[i].0 != quantity) ==>
      QuantityInfo(rows, quantity, default) == default
  {
    PutAllKeys(rows, First, Second, quantity);
    if exists i :: 0 <= i < |rows| && rows[i].0 == quantity {
      var i := LastRow(rows, quantity);
      PutAllLast(rows, First, Second, i, quantity);
    }
  }

  /** The position of the last row naming `quantity`. */
  function LastRow(rows: seq<(string, string)>, quantity: string): (i: nat)
    requires exists i :: 0 <= i < |rows| && rows[i].0 == quantity
    ensures i < |rows| && rows[i].0 == quantity
    ensures forall j :: i < j < |rows| ==> rows[j].0 != quantity
    decreases |rows|
  {
    var n := |rows| - 1;
    if rows[n].0 == quantity then n
    else
      var i :| 0 <= i < |rows| && rows[i].0 == quantity;
      assert rows[..n][i] == rows[i];
      var j := LastRow(rows[..n], quantity);
      assert rows[j] == rows[..n][j];
      j
  }
}
