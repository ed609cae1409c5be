/** The main flow over the lost-leads table: column mapping with synthesised fallbacks, value
    conversion, the junk-reason filter, scoring, and the score threshold of the final
    screen. */
module Pipeline {
  import opened Options
  import opened Chars
  import opened Strings
  import opened Sequences
  import opened PyFloat
  import opened Currency
  import opened Columns
  import opened Tables
  import opened ScoreParser
  import opened Scoring

  const ValueColumn: string := "Valor_Calc"
  const ScoreColumn: string := "Score_Pct"
  const JustificationColumn: string := "Justificativa"
  /** The cell of a synthesised product or seller column. */
  const Placeholder: Cell := Text("N/A")

  /** The columns the rest of the flow reads, after the fallbacks are in place. */
  datatype Mapping = Mapping(reason: string, value: Option<string>, name: string, product: string, seller: string)

  function MappingOf(columns: seq<string>): Mapping {
    var roles := InferRoles(columns);
    Mapping(roles.reason, roles.value, roles.name,
            roles.product.GetOr(FallbackProduct), roles.seller.GetOr(FallbackSeller))
  }

  // ----- Preparation (`df_l` before the filters) -----

  /** `converter_valor_br` applied to one cell. Every cell of the table is read as text; a
      number already converted is kept. */
  function CellValue(c: Cell): Money {
    match c
    case Text(s) => ConvertBR(s)
    case Amount(m) => m
    case Whole(n) => Exact(n as real)
  }

  /** `df[col].apply(converter_valor_br)`. */
  function Amounts(cells: seq<Cell>): (out: seq<Cell>)
    ensures |out| == |cells| && forall i :: 0 <= i < |cells| ==> out[i] == Amount(CellValue(cells[i]))
  {
    seq(|cells|, i requires 0 <= i < |cells| => Amount(CellValue(cells[i])))
  }

  /** A constant "N/A" column under `fallback` unless a column was found. */
  function WithFallback(f: Frame, found: Option<string>, fallback: string): Frame {
    if found.Some? then f else Assign(f, fallback, Constant(|f.rows|, Placeholder))
  }

  /** `Valor_Calc`: the converted value column, or 0.0 throughout when there is none. */
  function WithValue(f: Frame, value: Option<string>): Frame
    requires value.Some? ==> forall r :: r in f.rows ==> value.value in r
  {
    match value
    case Some(col) => Assign(f, ValueColumn, Amounts(ColumnOf(f.rows, col)))
    case None => Assign(f, ValueColumn, Constant(|f.rows|, Amount(Exact(0.0))))
  }

  /** The premises under which preparation is well defined and adds only new fallbacks: the
      columns found are columns of the table, and a fallback is synthesised only under a name
      the table does not have. */
  ghost predicate Found(f: Frame, product: Option<string>, seller: Option<string>, value: Option<string>) {
    WellFormed(f)
    && (product.Some? ==> product.value in f.columns) && (product.None? ==> FallbackProduct !in f.columns)
    && (seller.Some? ==> seller.value in f.columns) && (seller.None? ==> FallbackSeller !in f.columns)
    && (value.Some? ==> value.value in f.columns)
  }

  lemma FallbackWellFormed(f: Frame, found: Option<string>, fallback: string)
    requires WellFormed(f)
    ensures WellFormed(WithFallback(f, found, fallback))
    ensures f.columns <= WithFallback(f, found, fallback).columns
    ensures |WithFallback(f, found, fallback).rows| == |f.rows|
    ensures forall c :: c in WithFallback(f, found, fallback).columns ==> c in f.columns || c == fallback
    ensures found.None? ==> fallback in WithFallback(f, found, fallback).columns
  {
    if found.None? {
      AssignWellFormed(f, fallback, Constant(|f.rows|, Placeholder));
    }
  }

  /** A column of a well-formed table is a key of each of its rows. */
  lemma ColumnInRows(f: Frame, c: string)
    requires WellFormed(f) && c in f.columns
    ensures forall r :: r in f.rows ==> c in r
  {
  }

  lemma FoundInRows(f: Frame, found: Option<string>)
    requires WellFormed(f) && (found.Some? ==> found.value in f.columns)
    ensures found.Some? ==> forall r :: r in f.rows ==> found.value in r
  {
  }

  /** Preparation once the product, seller and value columns have been looked up. */
  function PrepareWith(f: Frame, product: Option<string>, seller: Option<string>, value: Option<string>): Frame
    requires WellFormed(f) && (value.Some? ==> value.value in f.columns)
  {
    var g1 := WithFallback(f, product, FallbackProduct);
    FallbackWellFormed(f, product, FallbackProduct);
    var g2 := WithFallback(g1, seller, FallbackSeller);
    FallbackWellFormed(g1, seller, FallbackSeller);
    FoundInRows(g2, value);
    WithValue(g2, value)
  }

  /** The table after app.py's preparation: fallback product and seller columns, then
      `Valor_Calc`. */
  function Prepared(f: Frame): (p: Frame)
    requires WellFormed(f)
    ensures WellFormed(p) && |p.rows| == |f.rows| && f.columns <= p.columns
    ensures forall c :: c in p.columns ==>
      c in f.columns || c == FallbackProduct || c == FallbackSeller || c == ValueColumn
  {
    var roles := InferRoles(f.columns);
    InferredFound(f);
    PrepareWithShape(f, roles.product, roles.seller, roles.value);
    PrepareWith(f, roles.product, roles.seller, roles.value)
  }

  /** The inferred columns meet the premises of preparation. */
  lemma InferredFound(f: Frame)
    requires WellFormed(f)
    ensures Found(f, InferRoles(f.columns).product, InferRoles(f.columns).seller, InferRoles(f.columns).value)
  {
    FoundIsColumn(f.columns, ProductKeys);
    FoundIsColumn(f.columns, SellerKeys);
    FoundIsColumn(f.columns, ValueKeys);
    FallbacksAreNew(f.columns);
  }

  /** app.py's mapping and preparation steps, in place. Returns the final column mapping. */
  method Prepare(t: LeadTable) returns (m: Mapping)
    modifies t
    requires t.Valid()
    ensures t.Valid()
    ensures m == MappingOf(old(t.columns))
    ensures t.Contents() == Prepared(old(t.Contents()))
  {
    ghost var f := t.Contents();
    var roles := InferRoles(t.columns);
    FoundIsColumn(t.columns, ValueKeys);
    AddFallback(t, roles.product, FallbackProduct);
    AddFallback(t, roles.seller, FallbackSeller);
    FallbackWellFormed(f, roles.product, FallbackProduct);
    FallbackWellFormed(WithFallback(f, roles.product, FallbackProduct), roles.seller, FallbackSeller);
    AddValue(t, roles.value);
    m := Mapping(roles.reason, roles.value, roles.name,
                 roles.product.GetOr(FallbackProduct), roles.seller.GetOr(FallbackSeller));
  }

  /** A constant "N/A" column under `fallback`, in place, unless a column was found. */
  method AddFallback(t: LeadTable, found: Option<string>, fallback: string)
    modifies t
    requires t.Valid()
    ensures t.Valid()
    ensures t.Contents() == WithFallback(old(t.Contents()), found, fallback)
  {
    if found.None? {
      t.SetConstant(fallback, Placeholder);
    }
  }

  /** `Valor_Calc`, in place. */
  method AddValue(t: LeadTable, value: Option<string>)
    modifies t
    requires t.Valid() && (value.Some? ==> value.value in t.columns)
    ensures t.Valid()
    ensures t.Contents() == WithValue(old(t.Contents()), value)
  {
    FoundInRows(t.Contents(), value);
    match value {
      case Some(col) =>
        t.SetColumn(ValueColumn, Amounts(ColumnOf(t.rows, col)));
      case None =>
        t.SetConstant(ValueColumn, Amount(Exact(0.0)));
    }
  }

  /** The names the preparation writes are three different names, none of them the default
      reason column. */
  lemma WrittenNamesDiffer()
    ensures FallbackProduct != FallbackSeller && FallbackProduct != ValueColumn && FallbackSeller != ValueColumn
    ensures DefaultReason != FallbackProduct && DefaultReason != FallbackSeller && DefaultReason != ValueColumn
  {
    assert FallbackProduct[0] == 'E' && FallbackSeller[0] == 'V' && ValueColumn[0] == 'V';
    assert FallbackSeller[1] == 'e' && ValueColumn[1] == 'a' && DefaultReason[0] == 'M';
  }

  /** The default name column "Lead" is none of the columns the flow writes. */
  lemma DefaultNameNotWritten()
    ensures DefaultName != FallbackProduct && DefaultName != FallbackSeller && DefaultName != ValueColumn
    ensures DefaultName != ScoreColumn && DefaultName != JustificationColumn
  {
    assert DefaultName[0] == 'L' && FallbackProduct[0] == 'E' && FallbackSeller[0] == 'V';
    assert ValueColumn[0] == 'V' && ScoreColumn[0] == 'S' && JustificationColumn[0] == 'J';
  }

  lemma PrepareWithShape(f: Frame, product: Option<string>, seller: Option<string>, value: Option<string>)
    requires Found(f, product, seller, value)
    ensures WellFormed(PrepareWith(f, product, seller, value))
    ensures |PrepareWith(f, product, seller, value).rows| == |f.rows|
    ensures f.columns <= PrepareWith(f, product, seller, value).columns
    ensures product.GetOr(FallbackProduct) in PrepareWith(f, product, seller, value).columns
    ensures seller.GetOr(FallbackSeller) in PrepareWith(f, product, seller, value).columns
    ensures ValueColumn in PrepareWith(f, product, seller, value).columns
    ensures forall c :: c in PrepareWith(f, product, seller, value).columns ==>
      c in f.columns || c == FallbackProduct || c == FallbackSeller || c == ValueColumn
  {
    var g1 := WithFallback(f, product, FallbackProduct);
    FallbackWellFormed(f, product, FallbackProduct);
    var g2 := WithFallback(g1, seller, FallbackSeller);
    FallbackWellFormed(g1, seller, FallbackSeller);
    ValueWellFormed(g2, value);
  }

  lemma ValueWellFormed(f: Frame, value: Option<string>)
    requires WellFormed(f) && (value.Some? ==> value.value in f.columns)
    ensures value.Some? ==> forall r :: r in f.rows ==> value.value in r
    ensures WellFormed(WithValue(f, value))
    ensures |WithValue(f, value).rows| == |f.rows|
    ensures f.columns <= WithValue(f, value).columns
    ensures ValueColumn in WithValue(f, value).columns
    ensures forall c :: c in WithValue(f, value).columns ==> c in f.columns || c == ValueColumn
  {
    match value {
      case Some(col) =>
        ColumnInRows(f, col);
        AssignWellFormed(f, ValueColumn, Amounts(ColumnOf(f.rows, col)));
      case None =>
        AssignWellFormed(f, ValueColumn, Constant(|f.rows|, Amount(Exact(0.0))));
    }
  }

  /** A fallback leaves every cell of the table's own columns as it was. */
  lemma FallbackKeeps(f: Frame, found: Option<string>, fallback: string, c: string, i: int)
    requires 0 <= i < |f.rows| && c in f.rows[i]
    requires found.None? ==> c != fallback
    ensures c in WithFallback(f, found, fallback).rows[i]
    ensures WithFallback(f, found, fallback).rows[i][c] == f.rows[i][c]
  {
    if found.None? {
      AssignOthers(f, fallback, Constant(|f.rows|, Placeholder), c, i);
    }
  }

  /** Every cell of the table's own columns is kept, except in an existing `Valor_Calc`
      column. */
  lemma PrepareWithKeeps(f: Frame, product: Option<string>, seller: Option<string>, value: Option<string>, i: int, c: string)
    requires Found(f, product, seller, value) && 0 <= i < |f.rows|
    requires c in f.columns && c != ValueColumn
    ensures c in PrepareWith(f, product, seller, value).rows[i]
    ensures PrepareWith(f, product, seller, value).rows[i][c] == f.rows[i][c]
  {
    assert f.rows[i] in f.rows;
    var g1 := WithFallback(f, product, FallbackProduct);
    FallbackWellFormed(f, product, FallbackProduct);
    FallbackKeeps(f, product, FallbackProduct, c, i);
    FallbackKeeps(g1, seller, FallbackSeller, c, i);
    var g2 := WithFallback(g1, seller, FallbackSeller);
    FallbackWellFormed(g1, seller, FallbackSeller);
    FoundInRows(g2, value);
  }

  /** Each row's `Valor_Calc` is `converter_valor_br` of its value cell, or 0.0 when there is
      no value column. */
  lemma PrepareWithValue(f: Frame, product: Option<string>, seller: Option<string>, value: Option<string>, i: int)
    requires Found(f, product, seller, value) && 0 <= i < |f.rows|
    ensures ValueColumn in PrepareWith(f, product, seller, value).rows[i]
    ensures match value
      case Some(col) =>
        col in f.rows[i] && PrepareWith(f, product, seller, value).rows[i][ValueColumn] == Amount(CellValue(f.rows[i][col]))
      case None => PrepareWith(f, product, seller, value).rows[i][ValueColumn] == Amount(Exact(0.0))
  {
    assert f.rows[i] in f.rows;
    var g1 := WithFallback(f, product, FallbackProduct);
    FallbackWellFormed(f, product, FallbackProduct);
    var g2 := WithFallback(g1, seller, FallbackSeller);
    FallbackWellFormed(g1, seller, FallbackSeller);
    FoundInRows(g2, value);
    if value.Some? {
      FallbackKeeps(f, product, FallbackProduct, value.value, i);
      FallbackKeeps(g1, seller, FallbackSeller, value.value, i);
      assert g2.rows[i][value.value] == f.rows[i][value.value];
    }
  }

  /** A synthesised product or seller column holds "N/A" in every row. */
  lemma PrepareWithFallbacks(f: Frame, product: Option<string>, seller: Option<string>, value: Option<string>, i: int)
    requires Found(f, product, seller, value) && 0 <= i < |f.rows|
    ensures |PrepareWith(f, product, seller, value).rows| == |f.rows|
    ensures product.None? ==>
      FallbackProduct in PrepareWith(f, product, seller, value).rows[i]
      && PrepareWith(f, product, seller, value).rows[i][FallbackProduct] == Placeholder
    ensures seller.None? ==>
      FallbackSeller in PrepareWith(f, product, seller, value).rows[i]
      && PrepareWith(f, product, seller, value).rows[i][FallbackSeller] == Placeholder
  {
    WrittenNamesDiffer();
    var g1 := WithFallback(f, product, FallbackProduct);
    FallbackWellFormed(f, product, FallbackProduct);
    var g2 := WithFallback(g1, seller, FallbackSeller);
    FallbackWellFormed(g1, seller, FallbackSeller);
    FoundInRows(g2, value);
    if product.None? {
      FallbackKeeps(g1, seller, FallbackSeller, FallbackProduct, i);
    }
  }

  /** Preparation keeps the table well formed and its rows, only appends columns (the
      fallbacks and `Valor_Calc`), and leaves the mapped product, seller and value columns
      present. */
  lemma PreparedShape(f: Frame)
    requires WellFormed(f)
    ensures WellFormed(Prepared(f))
    ensures |Prepared(f).rows| == |f.rows|
    ensures f.columns <= Prepared(f).columns
    ensures MappingOf(f.columns).product in Prepared(f).columns
    ensures MappingOf(f.columns).seller in Prepared(f).columns
    ensures ValueColumn in Prepared(f).columns
    ensures forall c :: c in Prepared(f).columns ==>
      c in f.columns || c == FallbackProduct || c == FallbackSeller || c == ValueColumn
  {
    InferredFound(f);
    var roles := InferRoles(f.columns);
    PrepareWithShape(f, roles.product, roles.seller, roles.value);
  }

  /** Preparation keeps the cells of the table's own columns, except `Valor_Calc`. */
  lemma PreparedKeeps(f: Frame, i: int, c: string)
    requires WellFormed(f) && 0 <= i < |f.rows|
    requires c in f.columns && c != ValueColumn
    ensures |Prepared(f).rows| == |f.rows| && c in f.rows[i]
    ensures c in Prepared(f).rows[i] && Prepared(f).rows[i][c] == f.rows[i][c]
  {
    InferredFound(f);
    var roles := InferRoles(f.columns);
    PrepareWithShape(f, roles.product, roles.seller, roles.value);
    PrepareWithKeeps(f, roles.product, roles.seller, roles.value, i, c);
  }

  /** Each row's `Valor_Calc` after preparation. */
  lemma PreparedValue(f: Frame, i: int)
    requires WellFormed(f) && 0 <= i < |f.rows|
    ensures ValueColumn in Prepared(f).rows[i]
    ensures match MappingOf(f.columns).value
      case Some(col) => col in f.rows[i] && Prepared(f).rows[i][ValueColumn] == Amount(CellValue(f.rows[i][col]))
      case None => Prepared(f).rows[i][ValueColumn] == Amount(Exact(0.0))
  {
    InferredFound(f);
    var roles := InferRoles(f.columns);
    PrepareWithValue(f, roles.product, roles.seller, roles.value, i);
  }

  /** The synthesised product and seller columns after preparation. */
  lemma PreparedFallbacks(f: Frame, i: int)
    requires WellFormed(f) && 0 <= i < |f.rows|
    ensures |Prepared(f).rows| == |f.rows|
    ensures InferRoles(f.columns).product.None? ==>
      FallbackProduct in Prepared(f).rows[i] && Prepared(f).rows[i][FallbackProduct] == Placeholder
    ensures InferRoles(f.columns).seller.None? ==>
      FallbackSeller in Prepared(f).rows[i] && Prepared(f).rows[i][FallbackSeller] == Placeholder
  {
    InferredFound(f);
    var roles := InferRoles(f.columns);
    PrepareWithFallbacks(f, roles.product, roles.seller, roles.value, i);
  }

  // ----- The junk-reason filter -----

  /** The alternatives of `r'dupli|teste|cliente|repetido'`. */
  const JunkKeys: seq<string> := ["dupli", "teste", "cliente", "repetido"]

  /** `str.contains(r'dupli|teste|cliente|repetido', case=False)` on one reason text. */
  predicate IsJunkText(s: string) {
    exists k :: k in JunkKeys && Contains(FoldStr(s), k)
  }

  /** A row whose reason is junk. A cell that is not text is never junk: the string of a
      number holds none of the keywords. */
  predicate IsJunk(reason: string, r: Row) {
    reason in r && r[reason].Text? && IsJunkText(r[reason].text)
  }

  /** The junk filter is case-insensitive: lower-casing a reason first does not change
      whether it is junk. */
  lemma JunkIgnoresCase(s: string)
    ensures IsJunkText(LowerStr(s)) <==> IsJunkText(s)
  {
    forall i | 0 <= i < |s|
      ensures FoldStr(LowerStr(s))[i] == FoldStr(s)[i]
    {
      FoldLower(s[i]);
    }
    assert FoldStr(LowerStr(s)) == FoldStr(s);
  }

  predicate Kept(reason: string, r: Row) {
    !IsJunk(reason, r)
  }

  /** `df_limpo`: the rows whose reason is not junk when the filter is on, or every row when it
      is off. `None` is the `KeyError` raised when the filter is on and the reason column does
      not exist. */
  function CleanRows(f: Frame, reason: string, enabled: bool): (r: Option<seq<Row>>)
    ensures r.None? <==> enabled && reason !in f.columns
  {
    if !enabled then Some(f.rows)
    else if reason !in f.columns then None
    else Some(Filter(f.rows, r => Kept(reason, r)))
  }

  /** The filter keeps an order-preserving subsequence of the rows. */
  lemma CleanKeepsOrder(f: Frame, reason: string, enabled: bool)
    requires CleanRows(f, reason, enabled).Some?
    ensures IsSubsequence(CleanRows(f, reason, enabled).value, f.rows)
  {
    if enabled {
      FilterIsSubsequence(f.rows, r => Kept(reason, r));
    } else {
      SubsequenceOfItself(f.rows);
    }
  }

  /** With the filter on, a row is kept exactly when its reason matches no junk keyword. */
  lemma CleanKeepsExactly(f: Frame, reason: string, x: Row)
    requires reason in f.columns
    ensures x in CleanRows(f, reason, true).value <==> x in f.rows && !IsJunk(reason, x)
  {
    if x in f.rows && !IsJunk(reason, x) {
      FilterKeepsAccepted(f.rows, r => Kept(reason, r), x);
    }
  }

  /** `removidos = total_bruto - total_limpo` is the number of junk rows, so never negative,
      and zero with the filter off. */
  lemma RemovedCount(f: Frame, reason: string, enabled: bool)
    requires CleanRows(f, reason, enabled).Some?
    ensures |f.rows| - |CleanRows(f, reason, enabled).value|
      == if enabled then |Filter(f.rows, r => IsJunk(reason, r))| else 0
    ensures |CleanRows(f, reason, enabled).value| <= |f.rows|
  {
    if enabled {
      FilterSplitsCount(f.rows, r => Kept(reason, r), r => IsJunk(reason, r));
    }
  }

  // ----- Scoring the clean table -----

  /** The table after scoring: `Score_Pct` and `Justificativa` from the outcomes, then
      `Score_Pct` clipped. */
  function Scored(f: Frame, ask: Row -> Option<string>): (g: Frame)
    ensures |g.rows| == |f.rows|
    ensures forall c :: c in g.columns <==> c in f.columns || c == ScoreColumn || c == JustificationColumn
  {
    var rs := Outcomes(f.rows, ask);
    var g := Assign(Assign(f, ScoreColumn, Wholes(Scores(rs))), JustificationColumn, Reasons(rs));
    Assign(g, ScoreColumn, Wholes(Clipped(Scores(rs))))
  }

  /** app.py:154-161 on the clean table. */
  method ScoreTable(t: LeadTable, ask: Row -> Option<string>)
    modifies t
    requires t.Valid()
    ensures t.Valid()
    ensures t.Contents() == Scored(old(t.Contents()), ask)
  {
    var results := ScoreBatch(t.rows, ask);
    var rs := results[..];
    t.SetColumn(ScoreColumn, Wholes(Scores(rs)));
    t.SetColumn(JustificationColumn, Reasons(rs));
    var ns := Scores(rs);
    var column := new int[|ns|](i requires 0 <= i < |ns| => ns[i]);
    assert column[..] == ns;
    ClipScores(column);
    t.SetColumn(ScoreColumn, Wholes(column[..]));
  }

  /** Scoring keeps the table well formed and its rows, and each row gets the score and
      reason of its own outcome, in range; no other cell changes. */
  lemma ScoredRow(f: Frame, ask: Row -> Option<string>, i: int, c: string)
    requires 0 <= i < |f.rows|
    ensures ScoreColumn in Scored(f, ask).rows[i] && JustificationColumn in Scored(f, ask).rows[i]
    ensures Scored(f, ask).rows[i][ScoreColumn] == Cell.Whole(LeadScore(ask(f.rows[i])).score)
    ensures Scored(f, ask).rows[i][JustificationColumn] == Text(LeadScore(ask(f.rows[i])).reason)
    ensures 0 <= LeadScore(ask(f.rows[i])).score <= 100
    ensures c != ScoreColumn && c != JustificationColumn ==>
      (c in Scored(f, ask).rows[i] <==> c in f.rows[i])
      && (c in f.rows[i] ==> Scored(f, ask).rows[i][c] == f.rows[i][c])
  {
    var rs := Outcomes(f.rows, ask);
    var r := rs[i];
    assert r == LeadScore(ask(f.rows[i]));
    LeadScoreInRange(ask(f.rows[i]));
    var g1 := Assign(f, ScoreColumn, Wholes(Scores(rs)));
    assert g1.rows[i] == f.rows[i][ScoreColumn := Cell.Whole(r.score)];
    var g2 := Assign(g1, JustificationColumn, Reasons(rs));
    assert g2.rows[i] == g1.rows[i][JustificationColumn := Text(r.reason)];
    var g3 := Assign(g2, ScoreColumn, Wholes(Clipped(Scores(rs))));
    assert g3.rows[i] == g2.rows[i][ScoreColumn := Cell.Whole(Clip(r.score))];
    assert Clip(r.score) == r.score;
  }

  lemma ScoredShape(f: Frame, ask: Row -> Option<string>)
    requires WellFormed(f)
    ensures WellFormed(Scored(f, ask))
    ensures |Scored(f, ask).rows| == |f.rows|
    ensures f.columns <= Scored(f, ask).columns
    ensures ScoreColumn in Scored(f, ask).columns && JustificationColumn in Scored(f, ask).columns
  {
    var rs := Outcomes(f.rows, ask);
    var g1 := Assign(f, ScoreColumn, Wholes(Scores(rs)));
    AssignWellFormed(f, ScoreColumn, Wholes(Scores(rs)));
    var g2 := Assign(g1, JustificationColumn, Reasons(rs));
    AssignWellFormed(g1, JustificationColumn, Reasons(rs));
    AssignWellFormed(g2, ScoreColumn, Wholes(Clipped(Scores(rs))));
  }

  /** A lead whose completion call failed is kept with score 0 and reason "Erro". */
  lemma FailedCallRow(f: Frame, ask: Row -> Option<string>, i: int)
    requires 0 <= i < |f.rows| && ask(f.rows[i]).None?
    ensures Scored(f, ask).rows[i][ScoreColumn] == Cell.Whole(0)
    ensures Scored(f, ask).rows[i][JustificationColumn] == Text("Erro")
  {
    ScoredRow(f, ask, i, ScoreColumn);
  }

  // ----- The threshold of the final screen -----

  predicate MeetsThreshold(minScore: int, r: Row) {
    ScoreColumn in r && r[ScoreColumn].Whole? && r[ScoreColumn].number >= minScore
  }

  /** `df_final[df_final['Score_Pct'] >= min_score]`. */
  function Shown(rows: seq<Row>, minScore: int): (shown: seq<Row>)
    ensures |shown| <= |rows|
  {
    Filter(rows, r => MeetsThreshold(minScore, r))
  }

  /** The threshold keeps, in order, exactly the rows whose score reaches it. */
  lemma ShownExactly(rows: seq<Row>, minScore: int, x: Row)
    ensures IsSubsequence(Shown(rows, minScore), rows)
    ensures x in Shown(rows, minScore) <==> x in rows && MeetsThreshold(minScore, x)
  {
    FilterIsSubsequence(rows, r => MeetsThreshold(minScore, r));
    if x in rows && MeetsThreshold(minScore, x) {
      FilterKeepsAccepted(rows, r => MeetsThreshold(minScore, r), x);
    }
  }

  /** Scores lie in [0, 100], so a threshold of 0 shows every scored lead and one above 100
      shows none. */
  lemma ThresholdBounds(f: Frame, ask: Row -> Option<string>, minScore: int)
    ensures minScore <= 0 ==> Shown(Scored(f, ask).rows, minScore) == Scored(f, ask).rows
    ensures minScore > 100 ==> Shown(Scored(f, ask).rows, minScore) == []
  {
    var rows: seq<Row> := Scored(f, ask).rows;
    assert |rows| == |f.rows|;
    forall i | 0 <= i < |rows|
      ensures rows[i][ScoreColumn].Whole? && 0 <= rows[i][ScoreColumn].number <= 100
      ensures ScoreColumn in rows[i]
    {
      ScoredRow(f, ask, i, ScoreColumn);
    }
    if minScore <= 0 {
      FilterAll(rows, r => MeetsThreshold(minScore, r));
    }
    if minScore > 100 {
      FilterNone(rows, r => MeetsThreshold(minScore, r));
    }
  }

  // ----- The whole flow -----

  /** What the final screen is built from: the lead counts, the ideal-customer profile and
      the shown rows. */
  datatype Report = Report(total: nat, removed: int, profile: string, shown: seq<Row>)

  /** The prepared table through the junk filter, the profile, scoring, the threshold and the
      export's column selection. `profile` is what loading the won deals and asking for the
      ideal-customer profile gave (app.py:150-151), `None` when either raised. `None` is a run
      the script aborts. A reason column the table does not have makes the filter raise
      `KeyError` (app.py:123) or, with the filter off, makes the reason charts raise
      (app.py:139-141). A name column the table does not have makes the export's
      `df_show[cols_show]` raise `KeyError` (app.py:179). */
  function FlowFrom(p: Frame, reason: string, name: string, removeJunk: bool, minScore: int,
                    profile: Option<string>, ask: Row -> Option<string>): (r: Option<Report>)
    ensures r.Some? ==> reason in p.columns && profile.Some? && r.value.profile == profile.value
    ensures r.Some? ==> r.value.total == |p.rows| && 0 <= r.value.removed
    ensures r.Some? ==> |r.value.shown| + r.value.removed <= r.value.total
  {
    if reason !in p.columns || profile.None? then None
    else
      var clean := CleanRows(p, reason, removeJunk).value;
      RemovedCount(p, reason, removeJunk);
      var scored := Scored(Frame(p.columns, clean), ask);
      if name !in scored.columns then None
      else Some(Report(|p.rows|, |p.rows| - |clean|, profile.value, Shown(scored.rows, minScore)))
  }

  /** The lost-leads table through preparation, the junk filter, scoring and the threshold.
      The leads shown and the leads removed together never outnumber the leads loaded. */
  function Flow(f: Frame, removeJunk: bool, minScore: int, profile: Option<string>,
                ask: Row -> Option<string>): (r: Option<Report>)
    requires WellFormed(f)
    ensures r.Some? ==> r.value.total == |f.rows| && 0 <= r.value.removed
    ensures r.Some? ==> |r.value.shown| + r.value.removed <= r.value.total
    ensures r.Some? ==> profile.Some? && r.value.profile == profile.value
  {
    var m := MappingOf(f.columns);
    FlowFrom(Prepared(f), m.reason, m.name, removeJunk, minScore, profile, ask)
  }

  /** app.py from the loaded lost-leads table to the rows the final screen shows. The table
      is left prepared in place; the filter and scoring work on a copy. */
  method Run(t: LeadTable, removeJunk: bool, minScore: int, profile: Option<string>,
             ask: Row -> Option<string>) returns (report: Option<Report>)
    modifies t
    requires t.Valid()
    ensures t.Valid() && t.Contents() == Prepared(old(t.Contents()))
    ensures report == Flow(old(t.Contents()), removeJunk, minScore, profile, ask)
  {
    var m := Prepare(t);
    report := Screen(t, m.reason, m.name, removeJunk, minScore, profile, ask);
  }

  /** The filter, profile, scoring, threshold and export on the prepared table, which is left
      as it is. */
  method Screen(t: LeadTable, reason: string, name: string, removeJunk: bool, minScore: int,
                profile: Option<string>, ask: Row -> Option<string>) returns (report: Option<Report>)
    requires t.Valid()
    ensures report == FlowFrom(t.Contents(), reason, name, removeJunk, minScore, profile, ask)
  {
    var p := t.Contents();
    if reason !in p.columns {
      FlowFromWithoutReason(p, reason, name, removeJunk, minScore, profile, ask);
      return None;
    }
    var clean := CleanRows(p, reason, removeJunk).value;
    CleanShaped(p, reason, removeJunk);
    if profile.None? {
      FlowFromWithoutProfile(p, reason, name, removeJunk, minScore, ask);
      return None;
    }
    var scored := ScoreRows(Frame(p.columns, clean), ask);
    if name !in scored.columns {
      FlowFromWithoutName(p, reason, name, removeJunk, minScore, profile, ask);
      return None;
    }
    report := Some(Report(|p.rows|, |p.rows| - |clean|, profile.value, Shown(scored.rows, minScore)));
    FlowFromClean(p, reason, name, removeJunk, minScore, profile, ask, clean, scored);
  }

  /** Without the reason column the run aborts, at the filter or at the charts. */
  lemma FlowFromWithoutReason(p: Frame, reason: string, name: string, removeJunk: bool, minScore: int,
                              profile: Option<string>, ask: Row -> Option<string>)
    requires reason !in p.columns
    ensures FlowFrom(p, reason, name, removeJunk, minScore, profile, ask).None?
  {
  }

  /** When loading the won deals or asking for the profile raises, the run aborts before any
      lead is scored. */
  lemma FlowFromWithoutProfile(p: Frame, reason: string, name: string, removeJunk: bool, minScore: int,
                               ask: Row -> Option<string>)
    ensures FlowFrom(p, reason, name, removeJunk, minScore, None, ask).None?
  {
  }

  /** Without the name column the run aborts at the export. */
  lemma FlowFromWithoutName(p: Frame, reason: string, name: string, removeJunk: bool, minScore: int,
                            profile: Option<string>, ask: Row -> Option<string>)
    requires reason in p.columns
    requires name !in Scored(Frame(p.columns, CleanRows(p, reason, removeJunk).value), ask).columns
    ensures FlowFrom(p, reason, name, removeJunk, minScore, profile, ask).None?
  {
  }

  /** The flow's report when the reason and name columns exist and the profile was given. */
  lemma FlowFromClean(p: Frame, reason: string, name: string, removeJunk: bool, minScore: int,
                      profile: Option<string>, ask: Row -> Option<string>, clean: seq<Row>, scored: Frame)
    requires reason in p.columns && profile.Some? && clean == CleanRows(p, reason, removeJunk).value
    requires scored == Scored(Frame(p.columns, clean), ask) && name in scored.columns
    ensures FlowFrom(p, reason, name, removeJunk, minScore, profile, ask)
      == Some(Report(|p.rows|, |p.rows| - |clean|, profile.value, Shown(scored.rows, minScore)))
  {
  }

  /** What a report states: the removed leads are the junk ones, none with the filter off, and
      the rows shown are, in order, exactly the scored clean rows whose score reaches the
      threshold. */
  lemma FlowReport(p: Frame, reason: string, name: string, removeJunk: bool, minScore: int,
                   profile: Option<string>, ask: Row -> Option<string>, x: Row)
    requires FlowFrom(p, reason, name, removeJunk, minScore, profile, ask).Some?
    ensures FlowFrom(p, reason, name, removeJunk, minScore, profile, ask).value.removed
      == if removeJunk then |Filter(p.rows, r => IsJunk(reason, r))| else 0
    ensures IsSubsequence(FlowFrom(p, reason, name, removeJunk, minScore, profile, ask).value.shown,
                          Scored(Frame(p.columns, CleanRows(p, reason, removeJunk).value), ask).rows)
    ensures x in FlowFrom(p, reason, name, removeJunk, minScore, profile, ask).value.shown
      <==> x in Scored(Frame(p.columns, CleanRows(p, reason, removeJunk).value), ask).rows
           && MeetsThreshold(minScore, x)
  {
    RemovedCount(p, reason, removeJunk);
    ShownExactly(Scored(Frame(p.columns, CleanRows(p, reason, removeJunk).value), ask).rows, minScore, x);
  }

  /** Scores the clean rows in a table of their own and hands back its contents. */
  method ScoreRows(f: Frame, ask: Row -> Option<string>) returns (scored: Frame)
    requires WellFormed(f)
    ensures scored == Scored(f, ask)
  {
    var cleaned := new LeadTable(f);
    ScoreTable(cleaned, ask);
    scored := cleaned.Contents();
  }

  /** The clean rows still belong to the table's columns. */
  lemma CleanShaped(f: Frame, reason: string, enabled: bool)
    requires WellFormed(f) && CleanRows(f, reason, enabled).Some?
    ensures WellFormed(Frame(f.columns, CleanRows(f, reason, enabled).value))
  {
  }

  /** The report's counts: every lead is counted, and the removed leads are the junk ones. */
  lemma FlowCounts(f: Frame, removeJunk: bool, minScore: int, profile: Option<string>,
                   ask: Row -> Option<string>)
    requires WellFormed(f) && Flow(f, removeJunk, minScore, profile, ask).Some?
    ensures Flow(f, removeJunk, minScore, profile, ask).value.total == |f.rows|
    ensures 0 <= Flow(f, removeJunk, minScore, profile, ask).value.removed <= |f.rows|
    ensures !removeJunk ==> Flow(f, removeJunk, minScore, profile, ask).value.removed == 0
    ensures removeJunk ==> (Flow(f, removeJunk, minScore, profile, ask).value.removed
      == |Filter(Prepared(f).rows, r => IsJunk(MappingOf(f.columns).reason, r))|)
  {
    PreparedShape(f);
    RemovedCount(Prepared(f), MappingOf(f.columns).reason, removeJunk);
  }

  /** The flow fails exactly when the table has no "motivo" column, with the junk filter on
      or off, when loading the won deals or asking for the profile raised, or when the name
      column the export selects is not one of the table's columns. */
  lemma FlowFails(f: Frame, removeJunk: bool, minScore: int, profile: Option<string>,
                  ask: Row -> Option<string>)
    requires WellFormed(f)
    ensures Flow(f, removeJunk, minScore, profile, ask).None?
      <==> FindColumn(f.columns, ReasonKeys).None? || profile.None?
           || MappingOf(f.columns).name !in f.columns
  {
    var m := MappingOf(f.columns);
    var p := Prepared(f);
    ReasonInPrepared(f);
    if m.reason in p.columns {
      NameInPrepared(f);
    }
  }

  /** The reason column survives preparation exactly when some column name contains
      "motivo". */
  lemma ReasonInPrepared(f: Frame)
    requires WellFormed(f)
    ensures MappingOf(f.columns).reason in Prepared(f).columns <==> FindColumn(f.columns, ReasonKeys).Some?
  {
    ReasonColumnExists(f.columns);
    if MappingOf(f.columns).reason !in f.columns {
      ReasonNotAdded(f);
    }
  }

  /** The name column is a column of the scored table exactly when it is one of the loaded
      table's columns: the flow adds no column named "Lead". */
  lemma NameInPrepared(f: Frame)
    requires WellFormed(f)
    ensures MappingOf(f.columns).name in Prepared(f).columns <==> MappingOf(f.columns).name in f.columns
    ensures MappingOf(f.columns).name != ScoreColumn || MappingOf(f.columns).name in f.columns
    ensures MappingOf(f.columns).name != JustificationColumn || MappingOf(f.columns).name in f.columns
  {
    DefaultNameNotWritten();
  }

  /** Without a "motivo" column the flow fails, whether the junk filter is on or off. */
  lemma FlowFailsWithoutReason(f: Frame, removeJunk: bool, minScore: int, profile: Option<string>,
                               ask: Row -> Option<string>)
    requires WellFormed(f)
    ensures FindColumn(f.columns, ReasonKeys).None? ==> Flow(f, removeJunk, minScore, profile, ask).None?
  {
    FlowFails(f, removeJunk, minScore, profile, ask);
  }

  /** Preparation adds no column with a "motivo" name. */
  lemma ReasonNotAdded(f: Frame)
    requires WellFormed(f) && MappingOf(f.columns).reason !in f.columns
    ensures MappingOf(f.columns).reason !in Prepared(f).columns
  {
    PreparedShape(f);
    WrittenNamesDiffer();
  }
}
