/** The statement generators of the go-sdk `db` package (`invocation.go`):
    the SQL text for reading, inserting, updating, upserting, checking and
    deleting one mapped object, and for truncating its table.

    A statement body is a sequence of pieces, literal text or a numbered
    placeholder, so that the numbering can be stated directly; `Render`
    spells a body as the text the Go code writes, with placeholder `n` as
    "$n". */
module SqlGen {
  import opened Wrappers
  import opened GoStrings
  import opened Decimal

  // ---------------------------------------------------------------------
  // Columns
  // ---------------------------------------------------------------------

  /** The column metadata of a mapped struct field. */
  datatype Column = Column(name: String, isPrimaryKey: bool, isUniqueKey: bool, isAuto: bool, isReadOnly: bool)

  function Names(cols: seq<Column>): (r: seq<String>)
    ensures |r| == |cols| && forall i :: 0 <= i < |cols| ==> r[i] == cols[i].name
  {
    seq(|cols|, i requires 0 <= i < |cols| => cols[i].name)
  }

  /** The columns satisfying `keep`, in their order. */
  function Keep(cols: seq<Column>, keep: Column -> bool): (r: seq<Column>)
    ensures |r| <= |cols|
    ensures forall c :: c in r <==> c in cols && keep(c)
    decreases |cols|
  {
    if |cols| == 0 then []
    else (if keep(cols[0]) then [cols[0]] else []) + Keep(cols[1..], keep)
  }

  function NotReadOnly(cols: seq<Column>): seq<Column> { Keep(cols, (c: Column) => !c.isReadOnly) }
  function NotAutos(cols: seq<Column>): seq<Column> { Keep(cols, (c: Column) => !c.isAuto) }
  function NotPrimaryKeys(cols: seq<Column>): seq<Column> { Keep(cols, (c: Column) => !c.isPrimaryKey) }
  function NotUniqueKeys(cols: seq<Column>): seq<Column> { Keep(cols, (c: Column) => !c.isUniqueKey) }
  function PrimaryKeys(cols: seq<Column>): seq<Column> { Keep(cols, (c: Column) => c.isPrimaryKey) }
  function Autos(cols: seq<Column>): seq<Column> { Keep(cols, (c: Column) => c.isAuto) }

  /** The columns an insert or update writes: neither read-only nor auto. */
  function WriteColumns(cols: seq<Column>): seq<Column> { NotAutos(NotReadOnly(cols)) }

  // ---------------------------------------------------------------------
  // Statement bodies
  // ---------------------------------------------------------------------

  datatype Piece = Text(text: String) | Param(index: nat)

  type Body = seq<Piece>

  function PieceText(p: Piece): String {
    match p
    case Text(s) => s
    case Param(n) => "$" + FormatInt(n)
  }

  function PieceParams(p: Piece): seq<nat> {
    if p.Param? then [p.index] else []
  }

  /** The SQL text of a body. */
  function Render(q: Body): String
    decreases |q|
  {
    if |q| == 0 then [] else PieceText(q[0]) + Render(q[1..])
  }

  /** The placeholder numbers of a body, in order. */
  function Params(q: Body): seq<nat>
    decreases |q|
  {
    if |q| == 0 then [] else PieceParams(q[0]) + Params(q[1..])
  }

  lemma RenderCons(p: Piece, q: Body)
    ensures Render([p] + q) == PieceText(p) + Render(q)
  {
    assert ([p] + q)[0] == p;
    assert ([p] + q)[1..] == q;
  }

  lemma ParamsCons(p: Piece, q: Body)
    ensures Params([p] + q) == PieceParams(p) + Params(q)
  {
    assert ([p] + q)[0] == p;
    assert ([p] + q)[1..] == q;
  }

  lemma Single(p: Piece)
    ensures Render([p]) == PieceText(p) && Params([p]) == PieceParams(p)
  {
    assert [p][1..] == [];
  }

  lemma {:induction false} RenderAppend(a: Body, b: Body)
    ensures Render(a + b) == Render(a) + Render(b)
    decreases |a|
  {
    if |a| > 0 {
      assert (a + b)[0] == a[0];
      assert (a + b)[1..] == a[1..] + b;
      RenderAppend(a[1..], b);
      assert PieceText(a[0]) + (Render(a[1..]) + Render(b)) == (PieceText(a[0]) + Render(a[1..])) + Render(b);
    } else {
      assert a + b == b;
    }
  }

  lemma {:induction false} ParamsAppend(a: Body, b: Body)
    ensures Params(a + b) == Params(a) + Params(b)
    decreases |a|
  {
    if |a| > 0 {
      assert (a + b)[0] == a[0];
      assert (a + b)[1..] == a[1..] + b;
      ParamsAppend(a[1..], b);
      assert PieceParams(a[0]) + (Params(a[1..]) + Params(b)) == (PieceParams(a[0]) + Params(a[1..])) + Params(b);
    } else {
      assert a + b == b;
    }
  }

  lemma Append(a: Body, b: Body)
    ensures Render(a + b) == Render(a) + Render(b)
    ensures Params(a + b) == Params(a) + Params(b)
  {
    RenderAppend(a, b);
    ParamsAppend(a, b);
  }

  /** `from`, `from + 1`, ..., `count` numbers in all. */
  function Numbers(from: nat, count: nat): (r: seq<nat>)
    ensures |r| == count && forall i :: 0 <= i < count ==> r[i] == from + i
  {
    seq(count, i requires 0 <= i < count => from + i)
  }

  lemma NumbersSplit(from: nat, m: nat, k: nat)
    ensures Numbers(from, m) + Numbers(from + m, k) == Numbers(from, m + k)
  {
  }

  /** Placeholders "$from,...": `count` of them separated by commas. */
  function ParamList(from: nat, count: nat): Body
    decreases count
  {
    if count == 0 then []
    else if count == 1 then [Param(from)]
    else [Param(from)] + ([Text(",")] + ParamList(from + 1, count - 1))
  }

  /** The list numbers its placeholders `from` on. */
  lemma {:induction false} ParamListParams(from: nat, count: nat)
    ensures Params(ParamList(from, count)) == Numbers(from, count)
    decreases count
  {
    if count == 1 {
      Single(Param(from));
    } else if count > 1 {
      var rest := ParamList(from + 1, count - 1);
      ParamListParams(from + 1, count - 1);
      ParamsCons(Param(from), [Text(",")] + rest);
      ParamsCons(Text(","), rest);
      NumbersSplit(from, 1, count - 1);
    }
  }

  /** The only text of the list is ",". */
  lemma {:induction false} ParamListCommas(from: nat, count: nat)
    ensures forall k :: 0 <= k < |ParamList(from, count)| && ParamList(from, count)[k].Text? ==> ParamList(from, count)[k].text == ","
    decreases count
  {
    if count > 1 {
      var rest := ParamList(from + 1, count - 1);
      ParamListCommas(from + 1, count - 1);
      var q := ParamList(from, count);
      forall k | 2 <= k < |q| ensures q[k] == rest[k - 2] { }
    }
  }

  /** "name = $n" for each name, numbered from `from`, separated by `sep`:
      the SET list of an update, or the key test of a WHERE clause. */
  function Assignments(names: seq<String>, from: nat, sep: String): Body
    decreases |names|
  {
    if |names| == 0 then []
    else if |names| == 1 then [Text(names[0] + " = ")] + [Param(from)]
    else [Text(names[0] + " = ")] + ([Param(from)] + ([Text(sep)] + Assignments(names[1..], from + 1, sep)))
  }

  /** The assignments as text, one per name: "name = $n". */
  function Terms(names: seq<String>, from: nat): (r: seq<String>)
    ensures |r| == |names| && forall i :: 0 <= i < |names| ==> r[i] == names[i] + " = " + PieceText(Param(from + i))
  {
    seq(|names|, i requires 0 <= i < |names| => names[i] + " = " + PieceText(Param(from + i)))
  }

  /** The assignments number their placeholders `from` on. */
  lemma {:induction false} AssignmentsParams(names: seq<String>, from: nat, sep: String)
    ensures Params(Assignments(names, from, sep)) == Numbers(from, |names|)
    decreases |names|
  {
    if |names| == 1 {
      ParamsCons(Text(names[0] + " = "), [Param(from)]);
      Single(Param(from));
    } else if |names| > 1 {
      var rest := Assignments(names[1..], from + 1, sep);
      AssignmentsParams(names[1..], from + 1, sep);
      ParamsCons(Text(names[0] + " = "), [Param(from)] + ([Text(sep)] + rest));
      ParamsCons(Param(from), [Text(sep)] + rest);
      ParamsCons(Text(sep), rest);
      NumbersSplit(from, 1, |names| - 1);
    }
  }

  /** The assignments read as their terms joined by the separator. */
  lemma {:induction false} AssignmentsRender(names: seq<String>, from: nat, sep: String)
    ensures Render(Assignments(names, from, sep)) == Join(Terms(names, from), sep)
    decreases |names|
  {
    if |names| > 0 {
      var t := Terms(names, from);
      var name := names[0] + " = ";
      var token := PieceText(Param(from));
      if |names| == 1 {
        RenderCons(Text(name), [Param(from)]);
        Single(Param(from));
      } else {
        var rest := Assignments(names[1..], from + 1, sep);
        var tail := Join(t[1..], sep);
        assert Render(rest) == tail by {
          AssignmentsRender(names[1..], from + 1, sep);
          assert Terms(names[1..], from + 1) == t[1..];
        }
        assert Render(Assignments(names, from, sep)) == name + (token + (sep + tail)) by {
          RenderCons(Text(name), [Param(from)] + ([Text(sep)] + rest));
          RenderCons(Param(from), [Text(sep)] + rest);
          RenderCons(Text(sep), rest);
        }
        Associate(name, token, sep, tail);
      }
    }
  }

  lemma Associate(a: String, b: String, c: String, d: String)
    ensures a + (b + (c + d)) == a + b + c + d
  {
  }

  // ---------------------------------------------------------------------
  // Clause texts
  // ---------------------------------------------------------------------

  /** Text whose first two characters are " R": a RETURNING clause. */
  predicate IsReturningText(s: String) {
    |s| >= 2 && s[0] == ' ' && s[1] == 'R'
  }

  /** Text whose first two characters are " O": an ON CONFLICT clause. */
  predicate IsConflictText(s: String) {
    |s| >= 2 && s[0] == ' ' && s[1] == 'O'
  }

  lemma ReturningLetters(clause: String, rest: String)
    requires clause == " RETURNING "
    ensures IsReturningText(clause + rest) && !IsConflictText(clause + rest)
  {
  }

  lemma ConflictLetters(clause: String, rest: String)
    requires clause == " ON CONFLICT ("
    ensures IsConflictText(clause + rest) && !IsReturningText(clause + rest)
  {
  }

  lemma InsertLetters(clause: String, rest: String)
    requires clause == "INSERT INTO "
    ensures !IsConflictText(clause + rest) && clause + rest != "("
  {
    assert (clause + rest)[0] == 'I';
  }

  function ReturningText(autos: seq<Column>): String {
    " RETURNING " + Join(Names(autos), ",")
  }

  /** " RETURNING a,b" when there are auto columns, nothing otherwise. */
  function Returning(autos: seq<Column>): Body {
    if |autos| > 0 then [Text(ReturningText(autos))] else []
  }

  /** The body ends in a RETURNING clause. */
  predicate EndsWithReturning(q: Body) {
    |q| > 0 && q[|q| - 1].Text? && IsReturningText(q[|q| - 1].text)
  }

  /** No piece of the body is an ON CONFLICT clause. */
  predicate NoConflict(q: Body) {
    forall k :: 0 <= k < |q| && q[k].Text? ==> !IsConflictText(q[k].text)
  }

  lemma NoConflictAppend(a: Body, b: Body)
    requires NoConflict(a) && NoConflict(b)
    ensures NoConflict(a + b)
  {
    forall k | 0 <= k < |a + b| && (a + b)[k].Text? ensures !IsConflictText((a + b)[k].text) {
      if k >= |a| { assert (a + b)[k] == b[k - |a|]; }
    }
  }

  /** Appending a body without a conflict clause keeps the answer of the first. */
  lemma NoConflictAppendBoth(a: Body, b: Body)
    requires NoConflict(b)
    ensures NoConflict(a + b) <==> NoConflict(a)
  {
    if NoConflict(a) {
      NoConflictAppend(a, b);
    } else {
      var k :| 0 <= k < |a| && a[k].Text? && IsConflictText(a[k].text);
      assert (a + b)[k] == a[k];
    }
  }

  /** The auto columns are returned exactly when there are some, and the
      clause adds no placeholder. */
  lemma ReturningFacts(before: Body, autos: seq<Column>)
    requires |before| > 0 && !EndsWithReturning(before)
    ensures EndsWithReturning(before + Returning(autos)) <==> |autos| > 0
    ensures Params(Returning(autos)) == [] && NoConflict(Returning(autos))
  {
    if |autos| > 0 {
      ReturningLetters(" RETURNING ", Join(Names(autos), ","));
      Single(Text(ReturningText(autos)));
    } else {
      assert before + Returning(autos) == before;
    }
  }

  // ---------------------------------------------------------------------
  // Generators
  // ---------------------------------------------------------------------

  /** A statement and the label it is cached under. */
  datatype Statement = Statement(statementLabel: String, body: Body)

  datatype DbError = NoPrimaryKey

  /** `generateGet`: the readable columns of the row whose keys match. */
  function GenerateGet(table: String, cols: seq<Column>): (r: Result<Statement, DbError>)
    ensures r.Err? <==> |PrimaryKeys(NotReadOnly(cols))| == 0
  {
    var read := NotReadOnly(cols);
    var pks := PrimaryKeys(read);
    if |pks| == 0 then Err(NoPrimaryKey)
    else
      Ok(Statement(table + "_get",
                   [Text("SELECT " + Join(Names(read), ",") + " FROM " + table + " WHERE ")]
                   + Assignments(Names(pks), 1, " AND ")))
  }

  /** A get numbers the keys from 1 and reads as the columns, the table and
      "pk = $i" joined by " AND ". */
  lemma GetRendered(table: String, cols: seq<Column>)
    requires GenerateGet(table, cols).Ok?
    ensures var read := NotReadOnly(cols);
      var q := GenerateGet(table, cols).value.body;
      Params(q) == Numbers(1, |PrimaryKeys(read)|)
      && Render(q) == "SELECT " + Join(Names(read), ",") + " FROM " + table + " WHERE "
                      + Join(Terms(Names(PrimaryKeys(read)), 1), " AND ")
  {
    var read := NotReadOnly(cols);
    var head := Text("SELECT " + Join(Names(read), ",") + " FROM " + table + " WHERE ");
    RenderCons(head, Assignments(Names(PrimaryKeys(read)), 1, " AND "));
    ParamsCons(head, Assignments(Names(PrimaryKeys(read)), 1, " AND "));
    AssignmentsParams(Names(PrimaryKeys(read)), 1, " AND ");
    AssignmentsRender(Names(PrimaryKeys(read)), 1, " AND ");
  }

  /** `generateGetAll`: the readable columns of every row, without placeholders. */
  function GenerateGetAll(table: String, cols: seq<Column>): (r: Statement)
    ensures Params(r.body) == []
    ensures Render(r.body) == "SELECT " + Join(Names(NotReadOnly(cols)), ",") + " FROM " + table
  {
    var text := "SELECT " + Join(Names(NotReadOnly(cols)), ",") + " FROM " + table;
    Single(Text(text));
    Statement(table + "_get_all", [Text(text)])
  }

  function InsertHead(table: String, write: seq<Column>): String {
    "INSERT INTO " + (table + " (" + Join(Names(write), ",") + ") VALUES (")
  }

  /** The insert list and values shared by the three inserts. */
  function InsertValues(table: String, write: seq<Column>): Body {
    [Text(InsertHead(table, write))] + ParamList(1, |write|) + [Text(")")]
  }

  /** The values are numbered 1 to the number of write columns; the insert
      ends in ")" and holds no ON CONFLICT clause. */
  lemma InsertValuesFacts(table: String, write: seq<Column>)
    ensures var q := InsertValues(table, write);
      Params(q) == Numbers(1, |write|) && |q| > 0 && q[|q| - 1] == Text(")") && NoConflict(q)
  {
    var head := [Text(InsertHead(table, write))];
    var values := ParamList(1, |write|);
    ParamListParams(1, |write|);
    ParamListCommas(1, |write|);
    Append(head, values);
    Append(head + values, [Text(")")]);
    Single(Text(InsertHead(table, write)));
    Single(Text(")"));
    InsertLetters("INSERT INTO ", table + " (" + Join(Names(write), ",") + ") VALUES (");
    assert NoConflict(values);
    NoConflictAppend(head, values);
    NoConflictAppend(head + values, [Text(")")]);
  }

  /** `generateCreate`. */
  function GenerateCreate(table: String, cols: seq<Column>): Statement {
    Statement(table + "_create", InsertValues(table, WriteColumns(cols)) + Returning(Autos(cols)))
  }

  /** A create numbers the write columns from 1 and returns the auto columns exactly when there are some. */
  lemma CreateFacts(table: String, cols: seq<Column>)
    ensures var q := GenerateCreate(table, cols).body;
      Params(q) == Numbers(1, |WriteColumns(cols)|) && (EndsWithReturning(q) <==> |Autos(cols)| > 0)
  {
    var insert := InsertValues(table, WriteColumns(cols));
    InsertValuesFacts(table, WriteColumns(cols));
    ReturningFacts(insert, Autos(cols));
    Append(insert, Returning(Autos(cols)));
  }

  /** " ON CONFLICT (a,b) DO NOTHING" when there are keys. */
  function ConflictNothing(pks: seq<Column>): Body {
    if |pks| > 0 then [Text(" ON CONFLICT (" + (Join(Names(pks), ",") + ") DO NOTHING"))] else []
  }

  /** `generateCreateIfNotExists`. */
  function GenerateCreateIfNotExists(table: String, cols: seq<Column>): Statement {
    Statement(table + "_create_if_not_exists",
              InsertValues(table, WriteColumns(cols)) + ConflictNothing(PrimaryKeys(cols)) + Returning(Autos(cols)))
  }

  /** The conflict clause is there exactly when the table has keys. */
  lemma ConflictNothingFacts(before: Body, pks: seq<Column>)
    requires |before| > 0 && NoConflict(before) && !EndsWithReturning(before)
    ensures var q := before + ConflictNothing(pks);
      (NoConflict(q) <==> |pks| == 0) && |q| > 0 && !EndsWithReturning(q)
      && Params(ConflictNothing(pks)) == []
  {
    var q := before + ConflictNothing(pks);
    if |pks| > 0 {
      var text := " ON CONFLICT (" + (Join(Names(pks), ",") + ") DO NOTHING");
      ConflictLetters(" ON CONFLICT (", Join(Names(pks), ",") + ") DO NOTHING");
      Single(Text(text));
      assert q[|before|] == Text(text);
    } else {
      assert q == before;
    }
  }

  /** An insert that does nothing on a key conflict numbers the values from 1. */
  lemma CreateIfNotExistsParams(table: String, cols: seq<Column>)
    ensures Params(GenerateCreateIfNotExists(table, cols).body) == Numbers(1, |WriteColumns(cols)|)
  {
    var insert := InsertValues(table, WriteColumns(cols));
    var conflict := ConflictNothing(PrimaryKeys(cols));
    InsertValuesFacts(table, WriteColumns(cols));
    ConflictNothingFacts(insert, PrimaryKeys(cols));
    ReturningFacts(insert + conflict, Autos(cols));
    ParamsAppend(insert, conflict);
    ParamsAppend(insert + conflict, Returning(Autos(cols)));
  }

  /** It has the ON CONFLICT clause exactly when there are keys and the
      RETURNING clause exactly when there are auto columns. */
  lemma CreateIfNotExistsClauses(table: String, cols: seq<Column>)
    ensures var q := GenerateCreateIfNotExists(table, cols).body;
      (NoConflict(q) <==> |PrimaryKeys(cols)| == 0) && (EndsWithReturning(q) <==> |Autos(cols)| > 0)
  {
    var insert := InsertValues(table, WriteColumns(cols));
    var conflict := ConflictNothing(PrimaryKeys(cols));
    var returning := Returning(Autos(cols));
    InsertValuesFacts(table, WriteColumns(cols));
    ConflictNothingFacts(insert, PrimaryKeys(cols));
    ReturningFacts(insert + conflict, Autos(cols));
    NoConflictAppendBoth(insert + conflict, returning);
  }

  /** "($from,...)": one row's placeholders in parentheses. */
  function Tuple(width: nat, from: nat): Body {
    [Text("(")] + (ParamList(from, width) + [Text(")")])
  }

  /** One tuple per row, separated by commas and numbered on from `from`. */
  function Tuples(rows: nat, width: nat, from: nat): Body
    decreases rows
  {
    if rows == 0 then []
    else if rows == 1 then Tuple(width, from)
    else Tuple(width, from) + ([Text(",")] + Tuples(rows - 1, width, from + width))
  }

  /** The number of "(" pieces: the tuples opened. */
  function Opened(q: Body): nat
    decreases |q|
  {
    if |q| == 0 then 0 else (if q[0] == Text("(") then 1 else 0) + Opened(q[1..])
  }

  lemma OpenedCons(p: Piece, q: Body)
    ensures Opened([p] + q) == (if p == Text("(") then 1 else 0) + Opened(q)
  {
    assert ([p] + q)[0] == p;
    assert ([p] + q)[1..] == q;
  }

  lemma {:induction false} OpenedAppend(a: Body, b: Body)
    ensures Opened(a + b) == Opened(a) + Opened(b)
    decreases |a|
  {
    if |a| > 0 {
      assert (a + b)[0] == a[0];
      assert (a + b)[1..] == a[1..] + b;
      OpenedAppend(a[1..], b);
    } else {
      assert a + b == b;
    }
  }

  /** A body whose texts are all "," opens nothing. */
  lemma {:induction false} CommasOpenNothing(q: Body)
    requires forall k :: 0 <= k < |q| && q[k].Text? ==> q[k].text == ","
    ensures Opened(q) == 0
    decreases |q|
  {
    if |q| > 0 {
      assert q[0] != Text("(");
      CommasOpenNothing(q[1..]);
    }
  }

  /** A tuple numbers its placeholders `from` on. */
  lemma TupleParams(width: nat, from: nat)
    ensures Params(Tuple(width, from)) == Numbers(from, width)
  {
    ParamListParams(from, width);
    ParamsCons(Text("("), ParamList(from, width) + [Text(")")]);
    ParamsAppend(ParamList(from, width), [Text(")")]);
    Single(Text(")"));
  }

  /** A tuple opens once. */
  lemma TupleOpened(width: nat, from: nat)
    ensures Opened(Tuple(width, from)) == 1
  {
    ParamListCommas(from, width);
    CommasOpenNothing(ParamList(from, width));
    OpenedCons(Text("("), ParamList(from, width) + [Text(")")]);
    OpenedAppend(ParamList(from, width), [Text(")")]);
    OpenedCons(Text(")"), []);
    assert [Text(")")] + [] == [Text(")")];
  }

  /** The placeholders of `rows` rows of `width` columns, counted row by row. */
  function Cells(rows: nat, width: nat): nat
    decreases rows
  {
    if rows == 0 then 0 else width + Cells(rows - 1, width)
  }

  lemma {:induction false} CellsIsProduct(rows: nat, width: nat)
    ensures Cells(rows, width) == rows * width
    decreases rows
  {
    if rows > 0 {
      CellsIsProduct(rows - 1, width);
    }
  }

  lemma {:induction false} TuplesParamsCells(rows: nat, width: nat, from: nat)
    ensures Params(Tuples(rows, width, from)) == Numbers(from, Cells(rows, width))
    decreases rows
  {
    if rows == 1 {
      TupleParams(width, from);
    } else if rows > 1 {
      TuplesParamsCells(rows - 1, width, from + width);
      TuplesParamsStep(rows, width, from);
    }
  }

  /** One row more, given the placeholders of the rows after it. */
  lemma TuplesParamsStep(rows: nat, width: nat, from: nat)
    requires rows > 1
    requires Params(Tuples(rows - 1, width, from + width)) == Numbers(from + width, Cells(rows - 1, width))
    ensures Params(Tuples(rows, width, from)) == Numbers(from, Cells(rows, width))
  {
    var rest := Tuples(rows - 1, width, from + width);
    var tail := [Text(",")] + rest;
    assert Tuples(rows, width, from) == Tuple(width, from) + tail;
    TupleParams(width, from);
    ParamsAppend(Tuple(width, from), tail);
    ParamsCons(Text(","), rest);
    NumbersSplit(from, width, Cells(rows - 1, width));
  }

  /** The rows' placeholders are numbered row after row. */
  lemma TuplesParams(rows: nat, width: nat, from: nat)
    ensures Params(Tuples(rows, width, from)) == Numbers(from, rows * width)
  {
    TuplesParamsCells(rows, width, from);
    CellsIsProduct(rows, width);
  }

  /** The rows give one tuple each. */
  lemma {:induction false} TuplesOpened(rows: nat, width: nat, from: nat)
    ensures Opened(Tuples(rows, width, from)) == rows
    decreases rows
  {
    TupleOpened(width, from);
    if rows > 1 {
      var rest := Tuples(rows - 1, width, from + width);
      TuplesOpened(rows - 1, width, from + width);
      OpenedAppend(Tuple(width, from), [Text(",")] + rest);
      OpenedCons(Text(","), rest);
    }
  }

  /** `generateCreateMany` for `rows` objects. */
  function GenerateCreateMany(table: String, cols: seq<Column>, rows: nat): Body {
    [Text("INSERT INTO " + (table + " (" + Join(Names(WriteColumns(cols)), ",") + ") VALUES "))]
    + Tuples(rows, |WriteColumns(cols)|, 1)
  }

  /** A bulk insert has one tuple per object and numbers the placeholders 1
      to rows times write columns, row after row. */
  lemma CreateManyFacts(table: String, cols: seq<Column>, rows: nat)
    ensures var q := GenerateCreateMany(table, cols, rows);
      Params(q) == Numbers(1, rows * |WriteColumns(cols)|) && Opened(q) == rows
  {
    var rest := table + " (" + Join(Names(WriteColumns(cols)), ",") + ") VALUES ";
    var head := [Text("INSERT INTO " + rest)];
    InsertLetters("INSERT INTO ", rest);
    ParamsCons(Text("INSERT INTO " + rest), Tuples(rows, |WriteColumns(cols)|, 1));
    OpenedCons(Text("INSERT INTO " + rest), Tuples(rows, |WriteColumns(cols)|, 1));
    TuplesParams(rows, |WriteColumns(cols)|, 1);
    TuplesOpened(rows, |WriteColumns(cols)|, 1);
  }

  /** `generateUpdate`. */
  function GenerateUpdate(table: String, cols: seq<Column>): Statement {
    var write := WriteColumns(cols);
    Statement(table + "_update",
              [Text("UPDATE " + table + " SET ")]
              + (Assignments(Names(write), 1, ",")
                 + ([Text(" WHERE ")] + Assignments(Names(PrimaryKeys(cols)), |write| + 1, " AND "))))
  }

  /** SET numbers the write columns from 1 and WHERE numbers the keys on from there. */
  lemma UpdateParams(table: String, cols: seq<Column>)
    ensures var w := |WriteColumns(cols)|;
      Params(GenerateUpdate(table, cols).body) == Numbers(1, w) + Numbers(w + 1, |PrimaryKeys(cols)|)
  {
    var write := WriteColumns(cols);
    var set_ := Assignments(Names(write), 1, ",");
    var test := Assignments(Names(PrimaryKeys(cols)), |write| + 1, " AND ");
    ParamsCons(Text("UPDATE " + table + " SET "), set_ + ([Text(" WHERE ")] + test));
    ParamsAppend(set_, [Text(" WHERE ")] + test);
    ParamsCons(Text(" WHERE "), test);
    AssignmentsParams(Names(write), 1, ",");
    AssignmentsParams(Names(PrimaryKeys(cols)), |write| + 1, " AND ");
  }

  /** An update reads "col = $i" joined by "," after SET and "pk = $j"
      joined by " AND " after WHERE. */
  lemma UpdateRendered(table: String, cols: seq<Column>)
    ensures var w := |WriteColumns(cols)|;
      Render(GenerateUpdate(table, cols).body)
      == "UPDATE " + table + " SET "
         + (Join(Terms(Names(WriteColumns(cols)), 1), ",")
            + (" WHERE " + Join(Terms(Names(PrimaryKeys(cols)), w + 1), " AND ")))
  {
    var write := WriteColumns(cols);
    var set_ := Assignments(Names(write), 1, ",");
    var test := Assignments(Names(PrimaryKeys(cols)), |write| + 1, " AND ");
    RenderCons(Text("UPDATE " + table + " SET "), set_ + ([Text(" WHERE ")] + test));
    RenderAppend(set_, [Text(" WHERE ")] + test);
    RenderCons(Text(" WHERE "), test);
    AssignmentsRender(Names(write), 1, ",");
    AssignmentsRender(Names(PrimaryKeys(cols)), |write| + 1, " AND ");
  }

  /** The placeholder of each write column, by name: built in order, so a
      repeated name keeps its last position. */
  function TokenMap(write: seq<Column>): (m: map<String, nat>)
    ensures forall name :: name in m <==> name in Names(write)
    decreases |write|
  {
    if |write| == 0 then map[]
    else
      var init := write[..|write| - 1];
      assert Names(write) == Names(init) + [write[|write| - 1].name];
      TokenMap(init)[write[|write| - 1].name := |write|]
  }

  /** With distinct names, a column's placeholder is its position in the insert list. */
  lemma {:induction false} TokenMapPositions(write: seq<Column>, p: nat)
    requires forall i, j :: 0 <= i < j < |write| ==> write[i].name != write[j].name
    requires p < |write|
    ensures write[p].name in TokenMap(write) && TokenMap(write)[write[p].name] == p + 1
    decreases |write|
  {
    if p < |write| - 1 {
      TokenMapPositions(write[..|write| - 1], p);
    }
  }

  /** The placeholder the update of `name` uses: none for a name the
      insert does not list (Go's zero value, empty text). */
  function UpdateValue(name: String, tokens: map<String, nat>): Piece {
    if name in tokens then Param(tokens[name]) else Text("")
  }

  /** "col = $k" for each update column, separated by ",". */
  function UpdateSet(updates: seq<Column>, tokens: map<String, nat>): Body
    decreases |updates|
  {
    if |updates| == 0 then []
    else if |updates| == 1 then [Text(updates[0].name + " = ")] + [UpdateValue(updates[0].name, tokens)]
    else [Text(updates[0].name + " = ")] + ([UpdateValue(updates[0].name, tokens)] + ([Text(",")] + UpdateSet(updates[1..], tokens)))
  }

  /** The tokens of the columns, in order. */
  function TokensOf(updates: seq<Column>, tokens: map<String, nat>): (r: seq<nat>)
    requires forall i :: 0 <= i < |updates| ==> updates[i].name in tokens
    ensures |r| == |updates| && forall i :: 0 <= i < |updates| ==> r[i] == tokens[updates[i].name]
  {
    seq(|updates|, i requires 0 <= i < |updates| => tokens[updates[i].name])
  }

  /** When every updated name has a token, the update list's placeholders
      are those tokens, in order. */
  lemma {:induction false} UpdateSetParams(updates: seq<Column>, tokens: map<String, nat>)
    requires forall i :: 0 <= i < |updates| ==> updates[i].name in tokens
    ensures Params(UpdateSet(updates, tokens)) == TokensOf(updates, tokens)
    decreases |updates|
  {
    if |updates| > 0 {
      var name := updates[0].name;
      if |updates| == 1 {
        ParamsCons(Text(name + " = "), [Param(tokens[name])]);
        Single(Param(tokens[name]));
      } else {
        var rest := UpdateSet(updates[1..], tokens);
        UpdateSetParams(updates[1..], tokens);
        ParamsCons(Text(name + " = "), [Param(tokens[name])] + ([Text(",")] + rest));
        ParamsCons(Param(tokens[name]), [Text(",")] + rest);
        ParamsCons(Text(","), rest);
        assert TokensOf(updates, tokens) == [tokens[name]] + TokensOf(updates[1..], tokens);
      }
    }
  }

  /** The update list never ends in a RETURNING clause. */
  lemma {:induction false} UpdateSetEnd(updates: seq<Column>, tokens: map<String, nat>)
    ensures !EndsWithReturning(UpdateSet(updates, tokens))
    decreases |updates|
  {
    if |updates| > 1 {
      var rest := UpdateSet(updates[1..], tokens);
      UpdateSetEnd(updates[1..], tokens);
      var q := UpdateSet(updates, tokens);
      assert q[|q| - 1] == rest[|rest| - 1];
    }
  }

  function UpsertWrites(cols: seq<Column>): seq<Column> {
    NotAutos(NotReadOnly(cols))
  }

  function UpsertUpdates(cols: seq<Column>): seq<Column> {
    NotUniqueKeys(NotPrimaryKeys(NotAutos(NotReadOnly(cols))))
  }

  /** " ON CONFLICT (pks) DO UPDATE SET col = $k, ..." when there are keys. */
  function ConflictUpdate(cols: seq<Column>): Body {
    var pks := PrimaryKeys(cols);
    if |pks| > 0 then
      [Text(" ON CONFLICT (" + (Join(Names(pks), ",") + ") DO UPDATE SET "))]
      + UpdateSet(UpsertUpdates(cols), TokenMap(UpsertWrites(cols)))
    else []
  }

  /** `generateUpsert`: an insert whose key conflict updates the non-key
      columns to the values just offered. */
  function GenerateUpsert(table: String, cols: seq<Column>): Statement {
    Statement(table + "_upsert",
              InsertValues(table, UpsertWrites(cols)) + ConflictUpdate(cols) + Returning(Autos(cols)))
  }

  /** Every column the conflict updates is one the insert lists. */
  lemma UpdatesAreWritten(cols: seq<Column>)
    ensures forall c :: c in UpsertUpdates(cols) ==> c in UpsertWrites(cols)
  {
  }

  lemma ConflictUpdateFacts(before: Body, cols: seq<Column>)
    requires |before| > 0 && NoConflict(before) && !EndsWithReturning(before)
    ensures var q := before + ConflictUpdate(cols);
      (NoConflict(q) <==> |PrimaryKeys(cols)| == 0) && |q| > 0 && !EndsWithReturning(q)
  {
    var q := before + ConflictUpdate(cols);
    var pks := PrimaryKeys(cols);
    if |pks| > 0 {
      var text := " ON CONFLICT (" + (Join(Names(pks), ",") + ") DO UPDATE SET ");
      var updates := UpsertUpdates(cols);
      var tokens := TokenMap(UpsertWrites(cols));
      ConflictLetters(" ON CONFLICT (", Join(Names(pks), ",") + ") DO UPDATE SET ");
      assert q[|before|] == Text(text);
      UpdateSetEnd(updates, tokens);
      var set_ := UpdateSet(updates, tokens);
      if |set_| > 0 {
        assert q[|q| - 1] == set_[|set_| - 1];
      } else {
        assert q[|q| - 1] == Text(text);
      }
    } else {
      assert q == before;
    }
  }

  /** An upsert has the ON CONFLICT clause exactly when there are keys and
      RETURNING exactly when there are auto columns. */
  lemma UpsertClauses(table: String, cols: seq<Column>)
    ensures var q := GenerateUpsert(table, cols).body;
      (NoConflict(q) <==> |PrimaryKeys(cols)| == 0) && (EndsWithReturning(q) <==> |Autos(cols)| > 0)
  {
    var insert := InsertValues(table, UpsertWrites(cols));
    var conflict := ConflictUpdate(cols);
    var returning := Returning(Autos(cols));
    InsertValuesFacts(table, UpsertWrites(cols));
    ConflictUpdateFacts(insert, cols);
    ReturningFacts(insert + conflict, Autos(cols));
    NoConflictAppendBoth(insert + conflict, returning);
  }

  /** Every updated column's name has a token. */
  lemma UpdatedNamesHaveTokens(cols: seq<Column>)
    ensures var updates := UpsertUpdates(cols);
      forall i :: 0 <= i < |updates| ==> updates[i].name in TokenMap(UpsertWrites(cols))
  {
    var updates := UpsertUpdates(cols);
    var write := UpsertWrites(cols);
    forall i | 0 <= i < |updates| ensures updates[i].name in TokenMap(write) {
      assert updates[i] in updates;
      UpdatesAreWritten(cols);
      var p :| 0 <= p < |write| && write[p] == updates[i];
      assert Names(write)[p] == updates[i].name;
    }
  }

  /** The tokens the update list of an upsert uses, in order. */
  function UpsertTokens(cols: seq<Column>): (r: seq<nat>)
    ensures |r| == |UpsertUpdates(cols)|
  {
    UpdatedNamesHaveTokens(cols);
    TokensOf(UpsertUpdates(cols), TokenMap(UpsertWrites(cols)))
  }

  lemma ReturningNoParams(autos: seq<Column>)
    ensures Params(Returning(autos)) == []
  {
    if |autos| > 0 {
      Single(Text(ReturningText(autos)));
    }
  }

  lemma ConflictUpdateParams(cols: seq<Column>)
    ensures Params(ConflictUpdate(cols)) == if |PrimaryKeys(cols)| > 0 then UpsertTokens(cols) else []
  {
    var pks := PrimaryKeys(cols);
    if |pks| > 0 {
      var set_ := UpdateSet(UpsertUpdates(cols), TokenMap(UpsertWrites(cols)));
      UpdatedNamesHaveTokens(cols);
      UpdateSetParams(UpsertUpdates(cols), TokenMap(UpsertWrites(cols)));
      ParamsCons(Text(" ON CONFLICT (" + (Join(Names(pks), ",") + ") DO UPDATE SET ")), set_);
    }
  }

  /** An upsert numbers the offered values from 1; with keys, the update
      list then reuses the tokens of the updated columns. */
  lemma UpsertParams(table: String, cols: seq<Column>)
    ensures Params(GenerateUpsert(table, cols).body)
      == Numbers(1, |UpsertWrites(cols)|) + (if |PrimaryKeys(cols)| > 0 then UpsertTokens(cols) else [])
  {
    var write := UpsertWrites(cols);
    var insert := InsertValues(table, write);
    var conflict := ConflictUpdate(cols);
    InsertValuesFacts(table, write);
    ConflictUpdateParams(cols);
    ReturningNoParams(Autos(cols));
    ParamsAppend(insert, conflict);
    ParamsAppend(insert + conflict, Returning(Autos(cols)));
  }

  /** With distinct write column names, each updated column gets the
      placeholder its value has in the insert list. */
  lemma UpsertSetsOfferedValues(cols: seq<Column>)
    requires var write := UpsertWrites(cols);
      forall i, j :: 0 <= i < j < |write| ==> write[i].name != write[j].name
    ensures var write := UpsertWrites(cols);
      var updates := UpsertUpdates(cols);
      var params := Params(UpdateSet(updates, TokenMap(write)));
      |params| == |updates| &&
      forall i :: 0 <= i < |updates| ==> 1 <= params[i] <= |write| && write[params[i] - 1] == updates[i]
  {
    var write := UpsertWrites(cols);
    UpdatesAreWritten(cols);
    TokenMapAllPositions(write);
    UpdateSetOffers(write, UpsertUpdates(cols), TokenMap(write));
  }

  /** With distinct names, every written column's token is its place in the
      insert list, from 1. */
  lemma TokenMapAllPositions(write: seq<Column>)
    requires forall i, j :: 0 <= i < j < |write| ==> write[i].name != write[j].name
    ensures forall p :: 0 <= p < |write| ==> write[p].name in TokenMap(write) && TokenMap(write)[write[p].name] == p + 1
  {
    forall p | 0 <= p < |write|
      ensures write[p].name in TokenMap(write) && TokenMap(write)[write[p].name] == p + 1
    {
      TokenMapPositions(write, p);
    }
  }

  /** When the tokens give every written column its place and every updated
      column is written, the update list's placeholders point each updated
      column back at its place in the insert list. */
  lemma UpdateSetOffers(write: seq<Column>, updates: seq<Column>, tokens: map<String, nat>)
    requires forall p :: 0 <= p < |write| ==> write[p].name in tokens && tokens[write[p].name] == p + 1
    requires forall c :: c in updates ==> c in write
    ensures var params := Params(UpdateSet(updates, tokens));
      |params| == |updates| &&
      forall i :: 0 <= i < |updates| ==> 1 <= params[i] <= |write| && write[params[i] - 1] == updates[i]
  {
    forall i | 0 <= i < |updates|
      ensures updates[i].name in tokens && 1 <= tokens[updates[i].name] <= |write| && write[tokens[updates[i].name] - 1] == updates[i]
    {
      assert updates[i] in updates;
      var p :| 0 <= p < |write| && write[p] == updates[i];
    }
    UpdateSetParams(updates, tokens);
  }

  /** `generateExists`. */
  function GenerateExists(table: String, cols: seq<Column>): (r: Result<Statement, DbError>)
    ensures r.Err? <==> |PrimaryKeys(cols)| == 0
  {
    var pks := PrimaryKeys(cols);
    if |pks| == 0 then Err(NoPrimaryKey)
    else Ok(Statement(table + "_exists", [Text("SELECT 1 FROM " + table + " WHERE ")] + Assignments(Names(pks), 1, " AND ")))
  }

  /** An existence check numbers the keys from 1 and tests "pk = $i" joined by " AND ". */
  lemma ExistsRendered(table: String, cols: seq<Column>)
    requires GenerateExists(table, cols).Ok?
    ensures var q := GenerateExists(table, cols).value.body;
      Params(q) == Numbers(1, |PrimaryKeys(cols)|)
      && Render(q) == "SELECT 1 FROM " + table + " WHERE " + Join(Terms(Names(PrimaryKeys(cols)), 1), " AND ")
  {
    RenderCons(Text("SELECT 1 FROM " + table + " WHERE "), Assignments(Names(PrimaryKeys(cols)), 1, " AND "));
    ParamsCons(Text("SELECT 1 FROM " + table + " WHERE "), Assignments(Names(PrimaryKeys(cols)), 1, " AND "));
    AssignmentsParams(Names(PrimaryKeys(cols)), 1, " AND ");
    AssignmentsRender(Names(PrimaryKeys(cols)), 1, " AND ");
  }

  /** `generateDelete`. */
  function GenerateDelete(table: String, cols: seq<Column>): (r: Result<Statement, DbError>)
    ensures r.Err? <==> |PrimaryKeys(cols)| == 0
  {
    var pks := PrimaryKeys(cols);
    if |pks| == 0 then Err(NoPrimaryKey)
    else Ok(Statement(table + "_delete", [Text("DELETE FROM " + table + " WHERE ")] + Assignments(Names(pks), 1, " AND ")))
  }

  /** A delete numbers the keys from 1 and tests "pk = $i" joined by " AND ". */
  lemma DeleteRendered(table: String, cols: seq<Column>)
    requires GenerateDelete(table, cols).Ok?
    ensures var q := GenerateDelete(table, cols).value.body;
      Params(q) == Numbers(1, |PrimaryKeys(cols)|)
      && Render(q) == "DELETE FROM " + table + " WHERE " + Join(Terms(Names(PrimaryKeys(cols)), 1), " AND ")
  {
    RenderCons(Text("DELETE FROM " + table + " WHERE "), Assignments(Names(PrimaryKeys(cols)), 1, " AND "));
    ParamsCons(Text("DELETE FROM " + table + " WHERE "), Assignments(Names(PrimaryKeys(cols)), 1, " AND "));
    AssignmentsParams(Names(PrimaryKeys(cols)), 1, " AND ");
    AssignmentsRender(Names(PrimaryKeys(cols)), 1, " AND ");
  }

  /** `generateTruncate`. */
  function GenerateTruncate(table: String): (r: Statement)
    ensures Params(r.body) == [] && Render(r.body) == "TRUNCATE " + table
  {
    Single(Text("TRUNCATE " + table));
    Statement(table + "_truncate", [Text("TRUNCATE " + table)])
  }
}
