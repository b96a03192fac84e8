/**
  The `get_pe_percentile` tool: normalise the caller's stock code, look its
  three-year PE percentile up in the `stocks` table, and answer with one of
  five messages (format error, no such stock, value absent, the percentile,
  query failed). The store is not modelled: a query is a `Request` value and
  its outcome is whatever the `query` parameter gives for it.
*/
module PeTool {
  import opened Wrappers
  import StockCode

  // ---------------------------------------------------------------------------
  // The store, seen from the tool

  /** A JSON cell of a returned row. JSON null reads as Python's `None`. */
  datatype Cell = Null | Number(value: real) | Text(text: string)

  /** One element of `response.data`: column name to cell. */
  type Row = map<string, Cell>

  /** The outcome of `.execute()`: the rows of `response.data`, or the text of the exception raised. */
  datatype QueryResult = Rows(data: seq<Row>) | Raised(error: string)

  /** `table(t).select(columns).eq(keyColumn, key)`. */
  datatype Request = Request(table: string, columns: string, keyColumn: string, key: string)

  const StocksTable := "stocks"
  const PercentileColumn := "pe_percentile_3y"
  const CodeColumn := "stock_code"

  /** `str(e)` of the ValueError raised by the format spec `.4f` applied to a `str`. */
  const TextNotFormattable := "Unknown format code 'f' for object of type 'str'"

  /** The request the tool sends for a normalised code: the `stocks` row whose `stock_code` is that code, its percentile column only. */
  function RequestFor(code: string): (q: Request)
    ensures q.key == code
    ensures q.table == "stocks" && q.keyColumn == "stock_code" && q.columns == "pe_percentile_3y"
  {
    Request(StocksTable, PercentileColumn, CodeColumn, code)
  }

  /** `row.get('pe_percentile_3y')`: a missing column and a JSON null are both `None`. */
  function PeValue(row: Row): (v: Cell)
    ensures PercentileColumn !in row ==> v == Null
    ensures PercentileColumn in row ==> v == row[PercentileColumn]
    ensures v != Null ==> PercentileColumn in row && row[PercentileColumn] == v
  {
    if PercentileColumn in row then row[PercentileColumn] else Null
  }

  // ---------------------------------------------------------------------------
  // Replies

  /** The five answers of the tool, each with what its message embeds. */
  datatype Reply =
    | FormatError(input: string)
    | NoRow(input: string)
    | NoValue(input: string)
    | Percentile(input: string, value: real)
    | QueryFailed(detail: string)

  predicate SameKind(a: Reply, b: Reply) {
    || (a.FormatError? && b.FormatError?)
    || (a.NoRow? && b.NoRow?)
    || (a.NoValue? && b.NoValue?)
    || (a.Percentile? && b.Percentile?)
    || (a.QueryFailed? && b.QueryFailed?)
  }

  /**
    The text returned to the caller. `fixed4` stands for the `.4f` formatting of
    a number, which is not modelled. Every message but the failure message
    embeds the caller's input verbatim at a fixed place; the failure message
    carries the exception text after a fixed prefix.
  */
  function Message(r: Reply, fixed4: real -> string): (m: string)
    ensures !r.QueryFailed? ==>
              InputOffset(r) + |r.input| <= |m| && m[InputOffset(r)..InputOffset(r) + |r.input|] == r.input
    ensures r.QueryFailed? ==> |m| == |r.detail| + 6 && m[6..] == r.detail
  {
    match r
    case FormatError(x) => "股票代码 '" + x + "' 格式错误，请使用 '000603.SZ' 或 'sz000603' 格式"
    case NoRow(x) => "未找到股票: " + x
    case NoValue(x) => "股票 " + x + " 的PE分位数据不存在"
    case Percentile(x, v) => "股票 " + x + " 的近三年PE分位: " + fixed4(v)
    case QueryFailed(e) => "查询失败: " + e
  }

  /** Where a message embeds the caller's raw input. */
  function InputOffset(r: Reply): nat
    requires !r.QueryFailed?
  {
    match r
    case FormatError(_) => 6
    case NoRow(_) => 7
    case _ => 3
  }

  // ---------------------------------------------------------------------------
  // The tool

  /** Python's truth test on the normaliser's result: `None` and `""` are false. */
  predicate Truthy(o: Option<string>) {
    o.Some? && o.value != ""
  }

  /**
    The body of the `try` block once the query has answered: no rows, a first
    row without a percentile, or a first row with one; an exception from the
    query, or from formatting a non-numeric cell, becomes a failure reply.
  */
  function Respond(stockCode: string, result: QueryResult): (r: Reply)
    ensures !r.FormatError?
    ensures r.NoRow? <==> result == Rows([])
    ensures r.NoValue? <==> result.Rows? && result.data != [] && PeValue(result.data[0]).Null?
    ensures r.Percentile? <==> result.Rows? && result.data != [] && PeValue(result.data[0]).Number?
    ensures r.Percentile? ==> r.value == PeValue(result.data[0]).value
    ensures result.Raised? ==> r == QueryFailed(result.error)
    ensures result.Rows? && result.data != [] && PeValue(result.data[0]).Text? ==> r == QueryFailed(TextNotFormattable)
    ensures !r.QueryFailed? ==> r.input == stockCode
  {
    match result
    case Raised(e) => QueryFailed(e)
    case Rows(data) =>
      if data == [] then NoRow(stockCode)
      else
        match PeValue(data[0])
        case Null => NoValue(stockCode)
        case Number(v) => Percentile(stockCode, v)
        case Text(_) => QueryFailed(TextNotFormattable)
  }

  /**
    get_pe_percentile: a code the normaliser rejects is answered with the format
    error at once; otherwise the store is asked for the normalised code, and the
    reply still names the caller's own spelling.
  */
  function GetPePercentile(stockCode: string, query: Request -> QueryResult): (r: Reply)
    ensures r.FormatError? <==> StockCode.Normalize(stockCode).None?
    ensures r.FormatError? ==> r.input == stockCode
    ensures StockCode.Normalize(stockCode).Some? ==>
              r == Respond(stockCode, query(RequestFor(StockCode.Normalize(stockCode).value)))
  {
    var supabaseCode := StockCode.Normalize(stockCode);
    if !Truthy(supabaseCode) then
      FormatError(stockCode)
    else
      Respond(stockCode, query(RequestFor(supabaseCode.value)))
  }

  // ---------------------------------------------------------------------------
  // Properties

  /** A rejected code is answered without consulting the store: any two stores give the same reply. */
  lemma FormatErrorWithoutLookup(stockCode: string, q1: Request -> QueryResult, q2: Request -> QueryResult)
    requires StockCode.Normalize(stockCode).None?
    ensures GetPePercentile(stockCode, q1) == GetPePercentile(stockCode, q2) == FormatError(stockCode)
  {
  }

  /** Only the row for the normalised key matters: stores that agree on it give the same reply. */
  lemma OnlyNormalizedKeyConsulted(stockCode: string, q1: Request -> QueryResult, q2: Request -> QueryResult)
    requires StockCode.Normalize(stockCode).Some?
    requires q1(RequestFor(StockCode.Normalize(stockCode).value)) == q2(RequestFor(StockCode.Normalize(stockCode).value))
    ensures GetPePercentile(stockCode, q1) == GetPePercentile(stockCode, q2)
  {
  }

  /** The two spellings of one code ask the store the same question, for the canonical key. */
  lemma SpellingsConsultSameRow(k: StockCode.Code, suffixMarker: string, prefixMarker: string, query: Request -> QueryResult)
    requires StockCode.Valid(k)
    requires StockCode.SpellsMarket(suffixMarker, k.market) && StockCode.SpellsMarket(prefixMarker, k.market)
    ensures var suffixForm, prefixForm := k.body + "." + suffixMarker, prefixMarker + k.body;
            && GetPePercentile(suffixForm, query) == Respond(suffixForm, query(RequestFor(StockCode.Canonical(k))))
            && GetPePercentile(prefixForm, query) == Respond(prefixForm, query(RequestFor(StockCode.Canonical(k))))
  {
    StockCode.SpellingsAgree(k, suffixMarker, prefixMarker);
  }

  /** Only the first row is read: rows after it never change the reply. */
  lemma FirstRowOnly(stockCode: string, first: Row, rest1: seq<Row>, rest2: seq<Row>)
    ensures Respond(stockCode, Rows([first] + rest1)) == Respond(stockCode, Rows([first] + rest2))
  {
  }

  /**
    A row whose percentile is null or missing is answered differently from no
    row at all, and with a different message.
  */
  lemma AbsentValueIsNotMissingRow(stockCode: string, first: Row, rest: seq<Row>, fixed4: real -> string)
    requires PercentileColumn !in first || first[PercentileColumn] == Null
    ensures Respond(stockCode, Rows([first] + rest)) == NoValue(stockCode)
    ensures Respond(stockCode, Rows([])) == NoRow(stockCode)
    ensures Message(NoValue(stockCode), fixed4) != Message(NoRow(stockCode), fixed4)
  {
    MessagesTellKindsApart(NoValue(stockCode), NoRow(stockCode), fixed4);
  }

  /**
    Replies of different kinds about the same input never share a message, so
    the caller can always tell which branch answered.
  */
  lemma MessagesTellKindsApart(a: Reply, b: Reply, fixed4: real -> string)
    requires !SameKind(a, b)
    requires a.QueryFailed? || b.QueryFailed? || a.input == b.input
    ensures Message(a, fixed4) != Message(b, fixed4)
  {
    var ma, mb := Message(a, fixed4), Message(b, fixed4);
    if a.NoRow? || b.NoRow? || a.QueryFailed? || b.QueryFailed? {
      assert ma[0] != mb[0];
    } else if a.FormatError? || b.FormatError? {
      assert ma[2] != mb[2];
    } else {
      var x := a.input;
      assert ma[3 + |x| + 2] != mb[3 + |x| + 2];
    }
  }

  /** The two spellings the format-error message recommends are accepted, and denote one key. */
  lemma RecommendedSpellingsAccepted()
    ensures StockCode.Normalize("000603.SZ") == StockCode.Normalize("sz000603") == Some("sz000603")
  {
    var k := StockCode.Code(StockCode.Sz, "000603");
    assert StockCode.Canonical(k) == "sz000603";
    assert "sz" + k.body == "sz000603";
    StockCode.SuffixExample000603();
    StockCode.PrefixSpellingNormalizes("sz000603", k, "sz");
  }

  /** A successful lookup and a code with no row, through the whole tool. */
  lemma LookupExamples(query: Request -> QueryResult)
    requires query(RequestFor("sh600739")) == Rows([map[PercentileColumn := Number(0.1234)]])
    requires query(RequestFor("sz301011")) == Rows([])
    ensures GetPePercentile("600739.SH", query) == Percentile("600739.SH", 0.1234)
    ensures GetPePercentile("sz301011", query) == NoRow("sz301011")
    ensures GetPePercentile("abc123", query) == FormatError("abc123")
  {
    StockCode.UsageGuideSh600739();
    StockCode.UsageGuideSz301011();
    StockCode.PrefixAndRejectExamples();
  }
}
