/** Column inference: `next((c for c in columns if any(k in c.lower() for k in keys)), default)`
    picks the first column, in table order, whose lower-cased name contains a keyword. */
module Columns {
  import opened Chars
  import opened Strings
  import opened Options

  /** Some keyword occurs in the lower-cased column name. */
  predicate MatchesAny(column: string, keys: seq<string>) {
    exists k :: k in keys && Contains(LowerStr(column), k)
  }

  /** Column `i` is the first one that matches. */
  predicate IsFirstMatch(columns: seq<string>, keys: seq<string>, i: int) {
    0 <= i < |columns| && MatchesAny(columns[i], keys)
    && forall j :: 0 <= j < i ==> !MatchesAny(columns[j], keys)
  }

  /** The generator's first yield, or `None` when it is exhausted. */
  function FindColumn(columns: seq<string>, keys: seq<string>): (r: Option<string>)
    ensures r.None? <==> forall i :: 0 <= i < |columns| ==> !MatchesAny(columns[i], keys)
    ensures r.Some? ==> exists i :: IsFirstMatch(columns, keys, i) && columns[i] == r.value
    ensures r.Some? ==> r.value in columns && MatchesAny(r.value, keys)
  {
    if |columns| == 0 then None
    else if MatchesAny(columns[0], keys) then
      assert IsFirstMatch(columns, keys, 0);
      Some(columns[0])
    else
      var r := FindColumn(columns[1..], keys);
      assert forall i :: 0 < i < |columns| ==> columns[i] == columns[1..][i - 1];
      if r.Some? then
        var i :| IsFirstMatch(columns[1..], keys, i) && columns[1..][i] == r.value;
        assert IsFirstMatch(columns, keys, i + 1);
        r
      else r
  }

  /** `next(gen, default)`: an existing column that matches a keyword, or else the default. */
  function InferColumn(columns: seq<string>, keys: seq<string>, default: string): (c: string)
    ensures c == default || (c in columns && MatchesAny(c, keys))
    ensures c != default ==> c in columns
  {
    FindColumn(columns, keys).GetOr(default)
  }

  /** A column found is one of the table's columns. */
  lemma FoundIsColumn(columns: seq<string>, keys: seq<string>)
    ensures FindColumn(columns, keys).Some? ==> FindColumn(columns, keys).value in columns
  {
    var r := FindColumn(columns, keys);
    if r.Some? {
      var i :| IsFirstMatch(columns, keys, i) && columns[i] == r.value;
    }
  }

  /** The first matching column is chosen, and no later one. */
  lemma FirstMatchChosen(columns: seq<string>, keys: seq<string>, i: int)
    requires IsFirstMatch(columns, keys, i)
    ensures FindColumn(columns, keys) == Some(columns[i])
  {
    var r := FindColumn(columns, keys);
    var j :| IsFirstMatch(columns, keys, j) && columns[j] == r.value;
    assert !(j < i) && !(i < j);
  }

  /** With no matching column the default is returned. */
  lemma DefaultWhenNoMatch(columns: seq<string>, keys: seq<string>, default: string)
    requires forall i :: 0 <= i < |columns| ==> !MatchesAny(columns[i], keys)
    ensures InferColumn(columns, keys, default) == default
  {
  }

  /** A default that itself matches a keyword is never an existing column when it is
      returned. */
  lemma MatchingDefaultIsNew(columns: seq<string>, keys: seq<string>, default: string)
    requires MatchesAny(default, keys)
    ensures InferColumn(columns, keys, default) in columns
      <==> FindColumn(columns, keys).Some?
  {
  }

  /** Product keywords of `extrair_icp`. */
  const IcpProductKeys: seq<string> := ["produto", "item", "equipamento"]
  /** The value keyword, used by `extrair_icp` and the main flow. */
  const ValueKeys: seq<string> := ["valor"]
  const ReasonKeys: seq<string> := ["motivo"]
  const NameKeys: seq<string> := ["nome", "cliente"]
  const ProductKeys: seq<string> := ["produto", "equipamento", "item", "tecnologia"]
  const SellerKeys: seq<string> :=
    ["vendedor", "respons\U{00E1}vel", "responsavel", "owner", "propriet\U{00E1}rio"]

  const DefaultReason: string := "Motivo"
  const DefaultName: string := "Lead"
  const FallbackProduct: string := "Equipamento_Interesse"
  const FallbackSeller: string := "Vendedor_Resp"

  /** The columns `extrair_icp` looks for in the sales table. */
  datatype IcpColumns = IcpColumns(product: Option<string>, value: Option<string>)

  function InferIcpColumns(columns: seq<string>): (ic: IcpColumns)
    ensures ic.product.Some? ==> ic.product.value in columns && MatchesAny(ic.product.value, IcpProductKeys)
    ensures ic.value.Some? ==> ic.value.value in columns && MatchesAny(ic.value.value, ValueKeys)
  {
    IcpColumns(FindColumn(columns, IcpProductKeys), FindColumn(columns, ValueKeys))
  }

  /** The roles the main flow assigns to the columns of the lost-leads table. */
  datatype Roles = Roles(
    reason: string,
    value: Option<string>,
    name: string,
    product: Option<string>,
    seller: Option<string>)

  function InferRoles(columns: seq<string>): (r: Roles)
    ensures r.reason == DefaultReason || r.reason in columns
    ensures r.name == DefaultName || r.name in columns
    ensures r.value.Some? ==> r.value.value in columns && MatchesAny(r.value.value, ValueKeys)
    ensures r.product.Some? ==> r.product.value in columns && MatchesAny(r.product.value, ProductKeys)
    ensures r.seller.Some? ==> r.seller.value in columns && MatchesAny(r.seller.value, SellerKeys)
  {
    Roles(
      InferColumn(columns, ReasonKeys, DefaultReason),
      FindColumn(columns, ValueKeys),
      InferColumn(columns, NameKeys, DefaultName),
      FindColumn(columns, ProductKeys),
      FindColumn(columns, SellerKeys))
  }

  /** A name whose first characters lower-case to `pat` contains `pat` once lower-cased. */
  lemma LowerPrefix(s: string, pat: string)
    requires |pat| <= |s| && forall i :: 0 <= i < |pat| ==> Lower(s[i]) == pat[i]
    ensures Contains(LowerStr(s), pat)
  {
    var l := LowerStr(s);
    assert l[..|pat|] == pat;
    StartsWithIsPrefix(l, pat);
  }

  lemma LowerMotivo()
    ensures Contains(LowerStr(DefaultReason), "motivo")
  {
    LowerPrefix(DefaultReason, "motivo");
  }

  lemma LowerEquipamento()
    ensures Contains(LowerStr(FallbackProduct), "equipamento")
  {
    LowerPrefix(FallbackProduct, "equipamento");
  }

  lemma LowerVendedor()
    ensures Contains(LowerStr(FallbackSeller), "vendedor")
  {
    LowerPrefix(FallbackSeller, "vendedor");
  }

  /** The default reason column "Motivo" matches its own keyword, so it is an existing column
      exactly when some column was found: with no "motivo" column the reason lookup
      `df_l[col_motivo]` names a column the table does not have. */
  lemma ReasonColumnExists(columns: seq<string>)
    ensures InferRoles(columns).reason in columns <==> FindColumn(columns, ReasonKeys).Some?
  {
    LowerMotivo();
    assert "motivo" in ReasonKeys;
    MatchingDefaultIsNew(columns, ReasonKeys, DefaultReason);
  }

  /** The name column is a column of the table exactly when some column name contains "nome"
      or "cliente", or the table has a column named "Lead" itself. */
  lemma NameColumnExists(columns: seq<string>)
    ensures InferRoles(columns).name in columns
      <==> FindColumn(columns, NameKeys).Some? || DefaultName in columns
  {
  }

  /** The synthesised product and seller columns are never names already in the table:
      each one contains its own keyword, so it would have been found. */
  lemma FallbacksAreNew(columns: seq<string>)
    ensures InferRoles(columns).product.None? ==> FallbackProduct !in columns
    ensures InferRoles(columns).seller.None? ==> FallbackSeller !in columns
  {
    FallbackProductIsNew(columns);
    FallbackSellerIsNew(columns);
  }

  lemma FallbackProductIsNew(columns: seq<string>)
    ensures FindColumn(columns, ProductKeys).None? ==> FallbackProduct !in columns
  {
    LowerEquipamento();
    assert "equipamento" in ProductKeys;
    if FallbackProduct in columns {
      var i :| 0 <= i < |columns| && columns[i] == FallbackProduct;
      assert MatchesAny(columns[i], ProductKeys);
    }
  }

  lemma FallbackSellerIsNew(columns: seq<string>)
    ensures FindColumn(columns, SellerKeys).None? ==> FallbackSeller !in columns
  {
    LowerVendedor();
    assert "vendedor" in SellerKeys;
    if FallbackSeller in columns {
      var i :| 0 <= i < |columns| && columns[i] == FallbackSeller;
      assert MatchesAny(columns[i], SellerKeys);
    }
  }
}
