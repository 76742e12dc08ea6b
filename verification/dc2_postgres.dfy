/** The PostgreSQL-backed DC2 object reader: the type translator, the
    filter optimizer, the WHERE/SELECT assembly and the column catalog built
    from the `information_schema` records. */
module PgObject {
  import opened Wrappers
  import opened Strings
  import opened PgFilters
  import opened PgStability
  import opened OrderedMaps
  import opened Partitions

  // ---------------------------------------------------------------------
  // Column types

  /** The numpy type a PostgreSQL column type is read as; any type name the
      translator does not know is kept as the name itself. */
  datatype Dtype = Int64 | Float64 | Bool | Untranslated(pgName: string)

  /** `_translate_dtype`: three PostgreSQL type names are translated, every
      other name is passed through unchanged, and nothing is an error. */
  function TranslateDtype(pgType: string): (r: Dtype)
    ensures r == Int64 <==> pgType == "bigint"
    ensures r == Float64 <==> pgType == "double precision"
    ensures r == Bool <==> pgType == "boolean"
    ensures r.Untranslated? ==> r.pgName == pgType
  {
    if pgType == "bigint" then Int64
    else if pgType == "double precision" then Float64
    else if pgType == "boolean" then Bool
    else Untranslated(pgType)
  }

  /** The PostgreSQL type name a translated type came from. */
  function PgTypeName(t: Dtype): string {
    match t
    case Int64 => "bigint"
    case Float64 => "double precision"
    case Bool => "boolean"
    case Untranslated(n) => n
  }

  /** Translation loses nothing: the PostgreSQL name can always be recovered. */
  lemma TranslateDtypeRoundTrip(pgType: string)
    ensures PgTypeName(TranslateDtype(pgType)) == pgType
  {
  }

  // ---------------------------------------------------------------------
  // The optimizer over a filter list

  /** The rewritten tract and patch filters, in input order (`tp_cond`). */
  function TpFilters(fs: seq<string>): seq<string> {
    Selected(fs, IsTractOrPatch, Rewrite)
  }

  /** The filters matching none of the patterns, verbatim and in input
      order (`others`). */
  function OtherFilters(fs: seq<string>): seq<string> {
    Unselected(fs, IsTractOrPatch)
  }

  /** `_optimize_filters`: the rewritten tract/patch filters go first. */
  function Optimize(fs: seq<string>): seq<string> {
    Partition(fs, IsTractOrPatch, Rewrite)
  }

  /** The loop of `_optimize_filters`, appending to `tp_cond` and `others`. */
  method OptimizeFilters(filters: seq<string>) returns (done: seq<string>)
    ensures done == TpFilters(filters) + OtherFilters(filters)
    ensures |done| == |filters|
  {
    var tpCond: seq<string> := [];
    var others: seq<string> := [];
    var n := 0;
    while n < |filters|
      invariant 0 <= n <= |filters|
      invariant tpCond == TpFilters(filters[..n])
      invariant others == OtherFilters(filters[..n])
    {
      var f := filters[n];
      PrefixStep(filters, n, IsTractOrPatch, Rewrite);
      if IsTractOrPatch(f) {
        tpCond := tpCond + [Rewrite(f)];
      } else {
        others := others + [f];
      }
      n := n + 1;
    }
    assert filters[..n] == filters;
    done := tpCond + others;
    OptimizeLength(filters);
  }

  /** One output per input: the optimizer never drops or adds a filter. */
  lemma OptimizeLength(fs: seq<string>)
    ensures |Optimize(fs)| == |fs|
  {
    PartitionLength(fs, IsTractOrPatch, Rewrite);
  }

  /** A filter matching no pattern is its own rewrite. */
  lemma RewriteOthers()
    ensures forall f :: !IsTractOrPatch(f) ==> Rewrite(f) == f
  {
  }

  /** The output is a reordering of the filters rewritten one by one. */
  lemma OptimizeIsPermutation(fs: seq<string>)
    ensures multiset(Optimize(fs)) == multiset(MapAll(fs, Rewrite))
  {
    RewriteOthers();
    PartitionIsPermutation(fs, IsTractOrPatch, Rewrite);
  }

  /** Both halves keep input order: optimizing a concatenation concatenates
      the halves' tract/patch parts and their pass-through parts. */
  lemma OptimizeAppend(a: seq<string>, b: seq<string>)
    ensures TpFilters(a + b) == TpFilters(a) + TpFilters(b)
    ensures OtherFilters(a + b) == OtherFilters(a) + OtherFilters(b)
  {
    PartsAppend(a, b, IsTractOrPatch, Rewrite);
  }

  /** A filter matching none of the four patterns is emitted verbatim, and
      one that matches any of them is rewritten ahead of the others. */
  lemma OptimizeSingle(f: string)
    ensures !IsTractOrPatch(f) ==> Optimize([f]) == [f]
    ensures IsTractOrPatch(f) ==> Optimize([f]) == [Rewrite(f)]
  {
    PartsSingle(f, IsTractOrPatch, Rewrite);
  }

  // ---------------------------------------------------------------------
  // A second pass of the optimizer

  /** Optimizing twice is optimizing once, as long as no filter has the
      right-form tract shape `N OP tract`. */
  lemma OptimizeIdempotent(fs: seq<string>)
    requires forall i :: 0 <= i < |fs| ==> !TractRight(fs[i])
    ensures Optimize(Optimize(fs)) == Optimize(fs)
  {
    forall k | 0 <= k < |fs| && IsTractOrPatch(fs[k])
      ensures !IsTractOrPatch(Rewrite(fs[k]))
    {
      RewriteStable(fs[k]);
    }
    PartitionIdempotent(fs, IsTractOrPatch, Rewrite);
  }

  /** A right-form tract filter is rewritten again on a second pass. */
  lemma OptimizeTwiceTractRight(f: string)
    requires TractRight(f)
    ensures Optimize(Optimize([f])) != Optimize([f])
  {
    PartsSingle(f, IsTractOrPatch, Rewrite);
    TractRightRewriteAgain(f);
    PartsSingle(Rewrite(f), IsTractOrPatch, Rewrite);
    assert Optimize([f]) == [Rewrite(f)];
    assert Optimize([Rewrite(f)]) == [Rewrite(Rewrite(f))];
  }

  // ---------------------------------------------------------------------
  // WHERE and SELECT

  /** `base_filters + tuple(native_filters)`, or `base_filters` alone when
      there are no native filters. */
  function AllFilters(base: seq<string>, native: Option<seq<string>>): (r: seq<string>)
    ensures native.None? ==> r == base
    ensures native.Some? ==> |r| == |base| + |native.value| && r[..|base|] == base && r[|base|..] == native.value
  {
    match native
    case None => base
    case Some(n) => base + n
  }

  /** The WHERE clause: empty without filters, otherwise every optimized
      filter in parentheses, joined by `AND`. */
  function WhereClause(filters: seq<string>): (r: string)
    ensures |filters| == 0 <==> r == ""
  {
    if |filters| == 0 then ""
    else "WHERE (" + Join(Optimize(filters), ") AND (") + ")"
  }

  /** Each filter in its own parentheses. */
  function Parenthesize(fs: seq<string>): (r: seq<string>)
    ensures |r| == |fs| && forall k :: 0 <= k < |fs| ==> r[k] == "(" + fs[k] + ")"
    decreases |fs|
  {
    if |fs| == 0 then [] else ["(" + fs[0] + ")"] + Parenthesize(fs[1..])
  }

  /** Joining with `) AND (` inside one pair of parentheses is joining the
      parenthesized filters with ` AND `. */
  lemma {:induction false} JoinParenthesized(xs: seq<string>)
    requires |xs| > 0
    ensures "(" + Join(xs, ") AND (") + ")" == Join(Parenthesize(xs), " AND ")
    decreases |xs|
  {
    if |xs| > 1 {
      JoinParenthesized(xs[1..]);
      var j := Join(xs[1..], ") AND (");
      var p := Parenthesize(xs);
      assert p[1..] == Parenthesize(xs[1..]);
      assert Join(p, " AND ") == p[0] + " AND " + Join(p[1..], " AND ");
      assert Join(xs, ") AND (") == xs[0] + ") AND (" + j;
      ParenStep(xs[0], j);
    }
  }

  /** One step of the join: the parentheses around the whole absorb the
      `) AND (` separators. */
  lemma ParenStep(x: string, j: string)
    ensures "(" + (x + ") AND (" + j) + ")" == ("(" + x + ")") + " AND " + ("(" + j + ")")
  {
    var l := "(" + (x + ") AND (" + j) + ")";
    var r := ("(" + x + ")") + " AND " + ("(" + j + ")");
    assert |l| == |r|;
    forall i | 0 <= i < |l| ensures l[i] == r[i] {
      if i == 0 {
      } else if i <= |x| {
        assert l[i] == x[i - 1] && r[i] == x[i - 1];
      } else if i < |x| + 8 {
        assert l[i] == ") AND ("[i - |x| - 1] && r[i] == ") AND ("[i - |x| - 1];
      } else if i < |x| + 8 + |j| {
        assert l[i] == j[i - |x| - 8] && r[i] == j[i - |x| - 8];
      }
    }
  }

  /** The clause names the optimized filters, each parenthesized, joined by
      ` AND `. */
  lemma WhereClauseParts(filters: seq<string>)
    requires |filters| > 0
    ensures WhereClause(filters) == "WHERE " + Join(Parenthesize(Optimize(filters)), " AND ")
  {
    OptimizeLength(filters);
    JoinParenthesized(Optimize(filters));
  }

  /** `'SELECT {} FROM {}.{} {};'` with the columns joined by `, `. */
  function SelectQuery(columns: seq<string>, schema: string, table: string, clause: string): (q: string)
    ensures StartsWith(q, "SELECT ") && EndsWith(q, " " + clause + ";")
  {
    var head := "SELECT " + Join(columns, ", ") + " FROM " + schema + "." + table;
    assert (head + " " + clause + ";")[..7] == "SELECT ";
    assert (head + " " + clause + ";")[|head|..] == " " + clause + ";";
    head + " " + clause + ";"
  }

  /** The parts of a SELECT statement. */
  datatype Select = Select(columns: seq<string>, schema: string, table: string, clause: string)

  /** A column name the query text can carry unambiguously: no space and no
      comma. */
  predicate PlainColumn(c: string) { !HasChar(c, ' ') && !HasChar(c, ',') }

  /** Reads `c1, c2, ..., cn ` off the front of `s`: space-ended words, each
      but the last ending in a comma. Returns the names and the rest. */
  function ParseColumns(s: string): (r: Option<(seq<string>, string)>)
    ensures r.Some? ==> |r.value.0| >= 1 && |r.value.1| < |s|
    decreases |s|
  {
    match CutAt(s, ' ')
    case None => None
    case Some((w, rest)) =>
      if |w| > 0 && w[|w| - 1] == ',' then
        match ParseColumns(rest)
        case None => None
        case Some((cs, r)) => Some(([w[..|w| - 1]] + cs, r))
      else Some(([w], rest))
  }

  /** Reads `<columns> FROM <schema>.<table> <clause>` back into its
      parts. */
  function ParseSelectBody(body: string): (r: Option<Select>)
  {
    match ParseColumns(body)
    case None => None
    case Some((cols, rest)) =>
      if !StartsWith(rest, "FROM ") then None
      else
        match CutAt(rest[5..], ' ')
        case None => None
        case Some((st, clause)) =>
          match CutAt(st, '.')
          case None => None
          case Some((schema, table)) => Some(Select(cols, schema, table, clause))
  }

  /** Reads a statement of the shape `SELECT <columns> FROM <schema>.<table>
      <clause>;` back into its parts. */
  function ParseSelect(q: string): (r: Option<Select>)
  {
    if |q| < 8 || !StartsWith(q, "SELECT ") || q[|q| - 1] != ';' then None
    else ParseSelectBody(q[7..|q| - 1])
  }

  /** A statement is read through its body. */
  lemma ParseSelectOf(body: string)
    ensures ParseSelect("SELECT " + body + ";") == ParseSelectBody(body)
  {
    var q := "SELECT " + body + ";";
    assert q[..7] == "SELECT ";
    assert q[7..|q| - 1] == body;
  }

  /** The column list joined by `, ` and followed by a space reads back
      as the columns. */
  lemma {:induction false} ParseColumnsJoin(cols: seq<string>, rest: string)
    requires |cols| >= 1 && forall k :: 0 <= k < |cols| ==> PlainColumn(cols[k])
    ensures ParseColumns(Join(cols, ", ") + " " + rest) == Some((cols, rest))
    decreases |cols|
  {
    var c := cols[0];
    if |cols| == 1 {
      assert Join(cols, ", ") == c;
      ParseColumnsLast(c, rest);
      assert [c] == cols;
    } else {
      var tl := cols[1..];
      var j1 := Join(tl, ", ");
      assert Join(cols, ", ") == c + ", " + j1;
      JoinedTail(c, j1, rest);
      assert forall k :: 0 <= k < |tl| ==> tl[k] == cols[k + 1];
      ParseColumnsJoin(tl, rest);
      ParseColumnsStep(c, j1 + " " + rest, tl, rest);
      assert [c] + tl == cols;
    }
  }

  lemma JoinedTail(c: string, j1: string, rest: string)
    ensures (c + ", " + j1) + " " + rest == c + ", " + (j1 + " " + rest)
  {
    Assoc(c + ", ", j1, " " + rest);
    Assoc(j1, " ", rest);
  }

  /** The last column name, then a space. */
  lemma ParseColumnsLast(c: string, rest: string)
    requires PlainColumn(c)
    ensures ParseColumns(c + " " + rest) == Some(([c], rest))
  {
    assert c + " " + rest == c + [' '] + rest;
    CutAtHead(c, ' ', rest);
  }

  /** A column name followed by `, ` and more columns. */
  lemma ParseColumnsStep(c: string, tail: string, cs: seq<string>, r: string)
    requires PlainColumn(c) && ParseColumns(tail) == Some((cs, r))
    ensures ParseColumns(c + ", " + tail) == Some(([c] + cs, r))
  {
    var w := c + ",";
    assert !HasChar(w, ' ') by {
      forall i | 0 <= i < |w| ensures w[i] != ' ' { if i < |c| { assert w[i] == c[i]; } }
    }
    assert c + ", " + tail == w + [' '] + tail;
    CutAtHead(w, ' ', tail);
    assert w[..|w| - 1] == c;
  }



  /** The statement `SelectQuery` builds reads back as its parts when the
      column names hold no space or comma, the schema no dot or space, and
      the table no space: the text after `SELECT ` is the `, `-joined
      column list, then ` FROM `, `schema.table`, a space, the clause and
      the closing `;`. */
  lemma SelectQueryParse(columns: seq<string>, schema: string, table: string, clause: string)
    requires |columns| >= 1 && forall k :: 0 <= k < |columns| ==> PlainColumn(columns[k])
    requires !HasChar(schema, '.') && !HasChar(schema, ' ') && !HasChar(table, ' ')
    ensures ParseSelect(SelectQuery(columns, schema, table, clause)) == Some(Select(columns, schema, table, clause))
  {
    var j := Join(columns, ", ");
    var st := schema + "." + table;
    var rest := "FROM " + (st + " " + clause);
    assert SelectQuery(columns, schema, table, clause) == "SELECT " + (j + " " + rest) + ";";
    ParseSelectOf(j + " " + rest);
    ParseColumnsJoin(columns, rest);
    assert rest[..5] == "FROM " && rest[5..] == st + [' '] + clause;
    SchemaTablePlain(schema, table);
    CutAtHead(st, ' ', clause);
    CutAtHead(schema, '.', table);
  }

  lemma SchemaTablePlain(schema: string, table: string)
    requires !HasChar(schema, ' ') && !HasChar(table, ' ')
    ensures !HasChar(schema + "." + table, ' ')
  {
    var st := schema + "." + table;
    forall i | 0 <= i < |st| ensures st[i] != ' ' {
      if i < |schema| { assert st[i] == schema[i]; }
      else if i > |schema| { assert st[i] == table[i - |schema| - 1]; }
    }
  }


  // ---------------------------------------------------------------------
  // The column catalog

  /** One row of `information_schema.columns`: a column name and its
      PostgreSQL type name. */
  datatype ColumnRecord = ColumnRecord(name: string, pgType: string)

  /** The column `coord` of the dpdd view has a user-defined type and is not
      a quantity. */
  const CoordColumn := "coord"

  predicate HasColumn(records: seq<ColumnRecord>, k: string) {
    exists i :: 0 <= i < |records| && records[i].name == k
  }

  /** The translated types of a table's columns, assigned row by row so that
      a repeated name keeps its first position and its last type; with
      `skipCoord`, rows named `coord` are passed over. */
  function ColumnDtypes(records: seq<ColumnRecord>, skipCoord: bool): (d: ODict<string, Dtype>)
    ensures Valid(d)
    decreases |records|
  {
    if |records| == 0 then Empty()
    else
      var prev := ColumnDtypes(records[..|records| - 1], skipCoord);
      var r := records[|records| - 1];
      if skipCoord && r.name == CoordColumn then prev
      else Put(prev, r.name, TranslateDtype(r.pgType))
  }

  /** A name is recorded iff some row carries it, unless it is `coord` and
      `coord` is skipped. */
  lemma {:induction false} ColumnDtypesKeys(records: seq<ColumnRecord>, skipCoord: bool, k: string)
    ensures k in ColumnDtypes(records, skipCoord).m <==> HasColumn(records, k) && !(skipCoord && k == CoordColumn)
    decreases |records|
  {
    if |records| > 0 {
      ColumnDtypesKeys(records[..|records| - 1], skipCoord, k);
      ColumnDtypesStep(records, skipCoord);
      HasColumnLast(records, k);
    }
  }

  /** A name is carried by a non-empty table iff its last row or an
      earlier one carries it. */
  lemma HasColumnLast(records: seq<ColumnRecord>, k: string)
    requires |records| > 0
    ensures HasColumn(records, k) <==> HasColumn(records[..|records| - 1], k) || records[|records| - 1].name == k
  {
    var pre := records[..|records| - 1];
    if HasColumn(pre, k) {
      var i :| 0 <= i < |pre| && pre[i].name == k;
      assert records[i].name == k;
    }
  }

  /** One more row changes at most the entry of its own name. */
  lemma ColumnDtypesStep(records: seq<ColumnRecord>, skipCoord: bool)
    requires |records| > 0
    ensures var r := records[|records| - 1];
      var prev := ColumnDtypes(records[..|records| - 1], skipCoord).m;
      ColumnDtypes(records, skipCoord).m ==
        if skipCoord && r.name == CoordColumn then prev else prev[r.name := TranslateDtype(r.pgType)]
  {
  }

  /** A row of another name leaves an entry alone. */
  lemma StepKeeps(m: map<string, Dtype>, prev: map<string, Dtype>, r: ColumnRecord, skipCoord: bool, k: string)
    requires m == if skipCoord && r.name == CoordColumn then prev else prev[r.name := TranslateDtype(r.pgType)]
    requires k in prev && r.name != k
    ensures k in m && m[k] == prev[k]
  {
  }

  /** Every recorded column's type comes from the last row carrying its name. */
  lemma {:induction false} ColumnDtypesLastWins(records: seq<ColumnRecord>, skipCoord: bool, i: nat)
    requires i < |records| && !(skipCoord && records[i].name == CoordColumn)
    requires forall j :: i < j < |records| ==> records[j].name != records[i].name
    ensures records[i].name in ColumnDtypes(records, skipCoord).m
    ensures ColumnDtypes(records, skipCoord).m[records[i].name] == TranslateDtype(records[i].pgType)
    decreases |records|
  {
    var n := |records| - 1;
    var pre := records[..n];
    var k := records[i].name;
    ColumnDtypesStep(records, skipCoord);
    if i < n {
      assert pre[i] == records[i];
      assert forall j :: i < j < |pre| ==> pre[j] == records[j];
      ColumnDtypesLastWins(pre, skipCoord, i);
      StepKeeps(ColumnDtypes(records, skipCoord).m, ColumnDtypes(pre, skipCoord).m, records[n], skipCoord, k);
    }
  }

  /** `_native_dpdd_dtypes`: the dpdd view's columns other than `coord`. */
  function DpddDtypes(records: seq<ColumnRecord>): (d: ODict<string, Dtype>)
    ensures Valid(d) && CoordColumn !in d.m
  {
    ColumnDtypesKeys(records, true, CoordColumn);
    ColumnDtypes(records, true)
  }

  /** `_generate_native_quantity_list`: the dpdd columns, once each. */
  function NativeQuantityList(records: seq<ColumnRecord>): (r: seq<string>)
    ensures forall k :: k in r <==> HasColumn(records, k) && k != CoordColumn
    ensures forall i, j :: 0 <= i < j < |r| ==> r[i] != r[j]
  {
    var d := DpddDtypes(records);
    assert forall k :: k in d.keys <==> k in d.m;
    assert forall k :: k in d.m <==> HasColumn(records, k) && k != CoordColumn by {
      forall k ensures k in d.m <==> HasColumn(records, k) && k != CoordColumn {
        ColumnDtypesKeys(records, true, k);
      }
    }
    d.keys
  }

  /** `other_tables` with the dpdd table appended. */
  function NativeTables(other: seq<string>, dpdd: string): (r: seq<string>)
    ensures |r| == |other| + 1 && r[..|other|] == other && r[|other|] == dpdd
  {
    other + [dpdd]
  }

  function Flatten<T>(xss: seq<seq<T>>): seq<T>
    decreases |xss|
  {
    if |xss| == 0 then [] else xss[0] + Flatten(xss[1..])
  }

  /** `_native_dtypes`: the columns of every native table, in table order,
      `coord` included; a column name in several tables gets the type from
      the last of them. */
  function NativeDtypes(tableRecords: seq<seq<ColumnRecord>>): (d: ODict<string, Dtype>)
    ensures Valid(d)
  {
    ColumnDtypes(Flatten(tableRecords), false)
  }

  /** The list comprehension `[(q, self._native_dpdd_dtypes[q]) for q in
      quantities]`: the dpdd type of every requested column, or `KeyError`
      for the first column the dpdd view lacks. */
  function DtypeFields(dpdd: ODict<string, Dtype>, quantities: seq<string>): (r: Result<seq<(string, Dtype)>>)
    ensures r.Ok? <==> forall k :: 0 <= k < |quantities| ==> quantities[k] in dpdd.m
    ensures r.Ok? ==> |r.value| == |quantities|
    ensures r.Ok? ==> forall k :: 0 <= k < |quantities| ==> r.value[k] == (quantities[k], dpdd.m[quantities[k]])
    ensures r.Err? ==> r.error == KeyError
    decreases |quantities|
  {
    if |quantities| == 0 then Ok([])
    else if quantities[0] !in dpdd.m then Err(KeyError)
    else match DtypeFields(dpdd, quantities[1..])
      case Err(e) => Err(e)
      case Ok(rest) => Ok([(quantities[0], dpdd.m[quantities[0]])] + rest)
  }

  /** The numpy record type of a query, `np.dtype(...)` of the fields: the
      comprehension runs first, so a column the dpdd view lacks is a
      `KeyError`; then numpy rejects a type name `_translate_dtype` passed
      through untranslated with `TypeError`. */
  function QueryDtypes(dpdd: ODict<string, Dtype>, quantities: seq<string>): (r: Result<seq<(string, Dtype)>>)
    ensures r.Err? ==> r.error == KeyError || r.error == TypeError
    ensures r.Err? && r.error == KeyError <==> exists k :: 0 <= k < |quantities| && quantities[k] !in dpdd.m
    ensures r.Err? && r.error == TypeError <==>
      (forall k :: 0 <= k < |quantities| ==> quantities[k] in dpdd.m) &&
      exists k :: 0 <= k < |quantities| && quantities[k] in dpdd.m && dpdd.m[quantities[k]].Untranslated?
    ensures r.Ok? ==> |r.value| == |quantities|
    ensures r.Ok? ==> forall k :: 0 <= k < |quantities| ==>
      r.value[k] == (quantities[k], dpdd.m[quantities[k]]) && !dpdd.m[quantities[k]].Untranslated?
  {
    match DtypeFields(dpdd, quantities)
    case Err(e) => Err(e)
    case Ok(fs) =>
      if exists k :: 0 <= k < |fs| && fs[k].1.Untranslated? then Err(TypeError) else Ok(fs)
  }
}
