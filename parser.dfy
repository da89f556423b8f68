/** The payload parser of src/scraper.rs: `parse_single_market` turns one JSON entry into
    a `Market` by trying ordered lists of candidate keys, and `parse_markets_from_json`
    picks the envelope and keeps the entries that parse. */
module Parser {
  import opened Wrappers
  import opened Decimal
  import opened Json
  import opened Models

  const UNTITLED: string := "Untitled Market"
  const TITLE_KEYS: seq<string> := ["question", "title", "name"]
  const DESCRIPTION_KEYS: seq<string> := ["description", "descriptionText"]
  const VOLUME_KEYS: seq<string> := ["volumeNum", "volume", "totalVolume"]
  const END_DATE_KEYS: seq<string> := ["end_date_iso", "endDate", "end_date", "endTime"]

  datatype ParseError = MissingId

  /** `s.parse::<f64>()`, a parser outside the model: the number a string denotes, if any. */
  type F64Parser = string -> Option<Number>

  // ---------------------------------------------------------------- identity

  /** The closure applied to the `id` member: a string as is, an integer that fits u64
      or i64 as its decimal text, anything else nothing. */
  function IdFromValue(v: Json): Option<string> {
    if AsStr(v).Some? then AsStr(v)
    else if AsU64(v).Some? then Some(NatToDecimal(AsU64(v).value))
    else if AsI64(v).Some? then Some(IntToDecimal(AsI64(v).value))
    else None
  }

  /** `id`, else the string `slug`, else the string `marketId`, else the string `market_slug`. */
  function MarketId(j: Json): Option<string> {
    var fromId := match Get(j, "id") case Some(v) => IdFromValue(v) case None => None;
    if fromId.Some? then fromId
    else if StrAt(j, "slug").Some? then StrAt(j, "slug")
    else if StrAt(j, "marketId").Some? then StrAt(j, "marketId")
    else StrAt(j, "market_slug")
  }

  /** An `id` member the parser can use: a string, or an integer within u64 or i64. */
  predicate UsableId(j: Json) {
    && Get(j, "id").Some?
    && var v := Get(j, "id").value;
       v.Str? || (v.Num? && v.n.Int? && I64_MIN <= v.n.i < U64_LIMIT)
  }

  /** The entry carries an identity: a usable `id`, or one of the slug-like keys as a string. */
  predicate HasIdentity(j: Json) {
    || UsableId(j)
    || (Get(j, "slug").Some? && Get(j, "slug").value.Str?)
    || (Get(j, "marketId").Some? && Get(j, "marketId").value.Str?)
    || (Get(j, "market_slug").Some? && Get(j, "market_slug").value.Str?)
  }

  // ---------------------------------------------------------------- other fields

  /** Title: the first PRESENT key of question, title, name; its value only counts if it
      is a string, otherwise the placeholder. */
  function Title(j: Json): string {
    match FirstPresent(j, TITLE_KEYS)
    case Some(Str(s)) => s
    case _ => UNTITLED
  }

  /** Description: the first present key of description, descriptionText, if a string. */
  function DescriptionOf(j: Json): Option<string> {
    match FirstPresent(j, DESCRIPTION_KEYS)
    case Some(v) => AsStr(v)
    case None => None
  }

  /** `tokens[0].price` as a number. */
  function TokenPrice(j: Json): Option<Number> {
    match Get(j, "tokens")
    case Some(Arr(tokens)) => if |tokens| > 0 then NumAt(tokens[0], "price") else None
    case _ => None
  }

  /** Current price: each candidate is tried on its own and the first that is a number wins. */
  function CurrentPrice(j: Json): Option<Number> {
    if TokenPrice(j).Some? then TokenPrice(j)
    else if NumAt(j, "currentPrice").Some? then NumAt(j, "currentPrice")
    else if NumAt(j, "price").Some? then NumAt(j, "price")
    else NumAt(j, "probability")
  }

  /** Volume: the first present key of volumeNum, volume, totalVolume; a number is taken,
      a string goes through the f64 parser, anything else gives nothing. */
  function Volume(j: Json, parseF64: F64Parser): Option<Number> {
    match FirstPresent(j, VOLUME_KEYS)
    case Some(Num(n)) => Some(n)
    case Some(Str(s)) => parseF64(s)
    case _ => None
  }

  /** End date: the raw string of the first present key of the four candidates. */
  function EndDate(j: Json): Option<string> {
    match FirstPresent(j, END_DATE_KEYS)
    case Some(v) => AsStr(v)
    case None => None
  }

  /** `parse_single_market` */
  function ParseSingleMarket(j: Json, parseF64: F64Parser): (r: Result<Market, ParseError>)
    ensures r.Failure? <==> !HasIdentity(j)
    ensures r.Success? ==> r.value.discovered_at.None? && r.value.updated_at.None?
  {
    match MarketId(j)
    case None => Failure(MissingId)
    case Some(id) =>
      Success(Market(id, Title(j), DescriptionOf(j), CurrentPrice(j), Volume(j, parseF64),
                     EndDate(j), None, None))
  }

  // ---------------------------------------------------------------- field rules

  /** Which candidate gives the id, in order. An integer id becomes its signed decimal text. */
  lemma IdRule(j: Json, parseF64: F64Parser)
    ensures UsableId(j) && Get(j, "id").value.Str? ==>
              ParseSingleMarket(j, parseF64).value.id == Get(j, "id").value.s
    ensures UsableId(j) && Get(j, "id").value.Num? ==>
              ParseSingleMarket(j, parseF64).value.id == IntToDecimal(Get(j, "id").value.n.i)
    ensures !UsableId(j) && StrAt(j, "slug").Some? ==>
              ParseSingleMarket(j, parseF64).value.id == StrAt(j, "slug").value
    ensures !UsableId(j) && StrAt(j, "slug").None? && StrAt(j, "marketId").Some? ==>
              ParseSingleMarket(j, parseF64).value.id == StrAt(j, "marketId").value
    ensures !UsableId(j) && StrAt(j, "slug").None? && StrAt(j, "marketId").None? &&
            StrAt(j, "market_slug").Some? ==>
              ParseSingleMarket(j, parseF64).value.id == StrAt(j, "market_slug").value
  {
  }

  /** The title comes from the first present key among question, title, name, even when
      that value is not a string and a later key holds one. */
  lemma TitleRule(j: Json)
    ensures Get(j, "question").Some? ==>
              Title(j) == (if Get(j, "question").value.Str? then Get(j, "question").value.s else UNTITLED)
    ensures Get(j, "question").None? && Get(j, "title").Some? ==>
              Title(j) == (if Get(j, "title").value.Str? then Get(j, "title").value.s else UNTITLED)
    ensures Get(j, "question").None? && Get(j, "title").None? && Get(j, "name").Some? ==>
              Title(j) == (if Get(j, "name").value.Str? then Get(j, "name").value.s else UNTITLED)
    ensures Get(j, "question").None? && Get(j, "title").None? && Get(j, "name").None? ==>
              Title(j) == UNTITLED
  {
    assert TITLE_KEYS[0] == "question" && TITLE_KEYS[1] == "title" && TITLE_KEYS[2] == "name";
  }

  /** The price candidates fall through one by one: a candidate that is missing or not a
      number hands over to the next. */
  lemma PriceRule(j: Json)
    ensures TokenPrice(j).Some? <==>
              Get(j, "tokens").Some? && Get(j, "tokens").value.Arr? &&
              |Get(j, "tokens").value.items| > 0 &&
              NumAt(Get(j, "tokens").value.items[0], "price").Some?
    ensures TokenPrice(j).Some? ==> CurrentPrice(j) == TokenPrice(j)
    ensures TokenPrice(j).None? && NumAt(j, "currentPrice").Some? ==>
              CurrentPrice(j) == NumAt(j, "currentPrice")
    ensures TokenPrice(j).None? && NumAt(j, "currentPrice").None? && NumAt(j, "price").Some? ==>
              CurrentPrice(j) == NumAt(j, "price")
    ensures TokenPrice(j).None? && NumAt(j, "currentPrice").None? && NumAt(j, "price").None? ==>
              CurrentPrice(j) == NumAt(j, "probability")
  {
  }

  /** The volume comes from the first present key; a value that is neither a number nor a
      string parsing as one gives no volume, whatever later keys hold. */
  lemma VolumeRule(j: Json, parseF64: F64Parser)
    ensures Get(j, "volumeNum").Some? ==>
              Volume(j, parseF64) == match Get(j, "volumeNum").value
                                     case Num(n) => Some(n)
                                     case Str(s) => parseF64(s)
                                     case _ => None
    ensures Get(j, "volumeNum").None? && Get(j, "volume").Some? ==>
              Volume(j, parseF64) == match Get(j, "volume").value
                                     case Num(n) => Some(n)
                                     case Str(s) => parseF64(s)
                                     case _ => None
    ensures Get(j, "volumeNum").None? && Get(j, "volume").None? && Get(j, "totalVolume").Some? ==>
              Volume(j, parseF64) == match Get(j, "totalVolume").value
                                     case Num(n) => Some(n)
                                     case Str(s) => parseF64(s)
                                     case _ => None
    ensures Get(j, "volumeNum").None? && Get(j, "volume").None? && Get(j, "totalVolume").None? ==>
              Volume(j, parseF64).None?
  {
    assert VOLUME_KEYS[0] == "volumeNum" && VOLUME_KEYS[1] == "volume" && VOLUME_KEYS[2] == "totalVolume";
  }

  /** Description and end date are the raw string of the first present candidate key, and
      nothing when that value is not a string. */
  lemma TextFieldRule(j: Json)
    ensures DescriptionOf(j).Some? ==>
              exists i :: 0 <= i < |DESCRIPTION_KEYS| && Get(j, DESCRIPTION_KEYS[i]) == Some(Str(DescriptionOf(j).value))
    ensures Get(j, "description").Some? ==> DescriptionOf(j) == AsStr(Get(j, "description").value)
    ensures Get(j, "description").None? ==> DescriptionOf(j) == StrAt(j, "descriptionText")
    ensures Get(j, "end_date_iso").Some? ==> EndDate(j) == AsStr(Get(j, "end_date_iso").value)
    ensures Get(j, "end_date_iso").None? && Get(j, "endDate").Some? ==>
              EndDate(j) == AsStr(Get(j, "endDate").value)
    ensures Get(j, "end_date_iso").None? && Get(j, "endDate").None? && Get(j, "end_date").Some? ==>
              EndDate(j) == AsStr(Get(j, "end_date").value)
    ensures Get(j, "end_date_iso").None? && Get(j, "endDate").None? && Get(j, "end_date").None? ==>
              EndDate(j) == StrAt(j, "endTime")
  {
    assert DESCRIPTION_KEYS[0] == "description" && DESCRIPTION_KEYS[1] == "descriptionText";
    assert END_DATE_KEYS[0] == "end_date_iso" && END_DATE_KEYS[1] == "endDate";
    assert END_DATE_KEYS[2] == "end_date" && END_DATE_KEYS[3] == "endTime";
  }

  // ---------------------------------------------------------------- batches

  /** The entries of the first envelope shape that matches: a bare array, else a `markets`
      array, else a `pageProps.markets` array; any other document has no entries. */
  function Entries(j: Json): (es: seq<Json>)
    ensures j.Arr? ==> es == j.items
    ensures !j.Arr? && Get(j, "markets").Some? && Get(j, "markets").value.Arr? ==>
              es == Get(j, "markets").value.items
    ensures !j.Arr? && !(Get(j, "markets").Some? && Get(j, "markets").value.Arr?) ==>
              es == match Get(j, "pageProps")
                    case Some(pp) => (match Get(pp, "markets") case Some(Arr(items)) => items case _ => [])
                    case None => []
  {
    match j
    case Arr(items) => items
    case _ =>
      match Get(j, "markets")
      case Some(Arr(items)) => items
      case _ =>
        match Get(j, "pageProps")
        case Some(pageProps) =>
          (match Get(pageProps, "markets") case Some(Arr(items)) => items case _ => [])
        case None => []
  }

  /** The markets of the entries that parse, in entry order. */
  function ParsedEntries(es: seq<Json>, parseF64: F64Parser): seq<Market>
    decreases |es|
  {
    if es == [] then []
    else
      var last := ParseSingleMarket(es[|es| - 1], parseF64);
      ParsedEntries(es[..|es| - 1], parseF64) + (if last.Success? then [last.value] else [])
  }

  /** Number of entries that parse. */
  function ParseableCount(es: seq<Json>, parseF64: F64Parser): nat
    decreases |es|
  {
    if es == [] then 0
    else ParseableCount(es[..|es| - 1], parseF64) +
         (if ParseSingleMarket(es[|es| - 1], parseF64).Success? then 1 else 0)
  }

  lemma {:induction false} ParsedEntriesAppend(a: seq<Json>, b: seq<Json>, parseF64: F64Parser)
    ensures ParsedEntries(a + b, parseF64) == ParsedEntries(a, parseF64) + ParsedEntries(b, parseF64)
    decreases |b|
  {
    if b != [] {
      var b' := b[..|b| - 1];
      assert (a + b)[..|a + b| - 1] == a + b';
      assert (a + b)[|a + b| - 1] == b[|b| - 1];
      ParsedEntriesAppend(a, b', parseF64);
    } else {
      assert a + b == a;
    }
  }

  /** One market per entry that parses, so never more markets than entries. */
  lemma {:induction false} ParsedEntriesCount(es: seq<Json>, parseF64: F64Parser)
    ensures |ParsedEntries(es, parseF64)| == ParseableCount(es, parseF64) <= |es|
    decreases |es|
  {
    if es != [] {
      ParsedEntriesCount(es[..|es| - 1], parseF64);
    }
  }

  /** A market is in the output exactly when some entry parses to it. */
  lemma {:induction false} ParsedEntriesMembers(es: seq<Json>, parseF64: F64Parser, m: Market)
    ensures m in ParsedEntries(es, parseF64) <==>
              exists k :: 0 <= k < |es| && ParseSingleMarket(es[k], parseF64) == Success(m)
    decreases |es|
  {
    if es != [] {
      var init := es[..|es| - 1];
      ParsedEntriesMembers(init, parseF64, m);
      if exists k :: 0 <= k < |es| && ParseSingleMarket(es[k], parseF64) == Success(m) {
        var k :| 0 <= k < |es| && ParseSingleMarket(es[k], parseF64) == Success(m);
        if k < |es| - 1 {
          assert init[k] == es[k];
        }
      }
      if exists k :: 0 <= k < |init| && ParseSingleMarket(init[k], parseF64) == Success(m) {
        var k :| 0 <= k < |init| && ParseSingleMarket(init[k], parseF64) == Success(m);
        assert es[k] == init[k];
      }
    }
  }

  /** Every parsed market is fresh from the wire: no timestamps yet. */
  lemma {:induction false} ParsedEntriesUnstamped(es: seq<Json>, parseF64: F64Parser)
    ensures forall m :: m in ParsedEntries(es, parseF64) ==> m.discovered_at.None? && m.updated_at.None?
    decreases |es|
  {
    if es != [] {
      ParsedEntriesUnstamped(es[..|es| - 1], parseF64);
    }
  }

  /** The loop of each envelope branch: parse every entry and keep the successes. */
  method ParseEntries(es: seq<Json>, parseF64: F64Parser) returns (markets: seq<Market>)
    ensures markets == ParsedEntries(es, parseF64)
  {
    markets := [];
    var i := 0;
    while i < |es|
      invariant 0 <= i <= |es|
      invariant markets == ParsedEntries(es[..i], parseF64)
    {
      var parsed := ParseSingleMarket(es[i], parseF64);
      if parsed.Success? {
        markets := markets + [parsed.value];
      }
      assert es[..i + 1][..i] == es[..i];
      i := i + 1;
    }
    assert es[..i] == es;
  }

  /** `parse_markets_from_json`: never fails; the markets of the entries that parse, taken
      from the first envelope shape that matches. */
  method ParseMarketsFromJson(j: Json, parseF64: F64Parser) returns (markets: seq<Market>)
    ensures markets == ParsedEntries(Entries(j), parseF64)
    ensures |markets| <= |Entries(j)|
  {
    if j.Arr? {
      markets := ParseEntries(j.items, parseF64);
    } else if Get(j, "markets").Some? && Get(j, "markets").value.Arr? {
      markets := ParseEntries(Get(j, "markets").value.items, parseF64);
    } else if Get(j, "pageProps").Some? {
      var pageProps := Get(j, "pageProps").value;
      if Get(pageProps, "markets").Some? && Get(pageProps, "markets").value.Arr? {
        markets := ParseEntries(Get(pageProps, "markets").value.items, parseF64);
      } else {
        markets := [];
      }
    } else {
      markets := [];
    }
    ParsedEntriesCount(Entries(j), parseF64);
  }

  // ---------------------------------------------------------------- worked examples
  // The entries of the parser tests, each described by the members it has and the
  // earlier-priority members it lacks.

  /** An entry whose `id` is the integer 1 gets the identity "1". */
  lemma IntegerIdExample(j: Json, parseF64: F64Parser)
    requires Get(j, "id") == Some(Num(Int(1)))
    ensures ParseSingleMarket(j, parseF64).Success?
    ensures ParseSingleMarket(j, parseF64).value.id == "1"
  {
    IdRule(j, parseF64);
    assert IntToDecimal(1) == "1";
  }

  /** A null question hides a string title. */
  lemma NullQuestionExample(j: Json, t: string)
    requires Get(j, "question") == Some(Null) && Get(j, "title") == Some(Str(t))
    ensures Title(j) == UNTITLED
  {
    TitleRule(j);
  }

  /** An entry with only a title has no identity and is refused. */
  lemma MissingIdExample(parseF64: F64Parser)
    ensures ParseSingleMarket(Obj(map["title" := Str("No ID Market")]), parseF64) == Failure(MissingId)
  {
  }

  /** The entry of the first parser test: every field under its primary key. */
  lemma PrimaryKeysExample(j: Json, price: Number, volume: Number, parseF64: F64Parser)
    requires Get(j, "id") == Some(Str("test-market-123"))
    requires Get(j, "question").None? && Get(j, "title") == Some(Str("Test Market"))
    requires Get(j, "description") == Some(Str("A test market"))
    requires Get(j, "tokens").None? && Get(j, "currentPrice") == Some(Num(price))
    requires Get(j, "volumeNum").None? && Get(j, "volume") == Some(Num(volume))
    requires Get(j, "end_date_iso").None? && Get(j, "endDate") == Some(Str("2024-12-31T23:59:59Z"))
    ensures ParseSingleMarket(j, parseF64) ==
              Success(Market("test-market-123", "Test Market", Some("A test market"), Some(price),
                             Some(volume), Some("2024-12-31T23:59:59Z"), None, None))
  {
    IdRule(j, parseF64);
    TitleRule(j);
    VolumeRule(j, parseF64);
    TextFieldRule(j);
  }

  /** The entry of the alternative-fields test: `slug`, `question`, `price`, `volumeNum`. */
  lemma AlternativeKeysExample(j: Json, price: Number, volume: Number, parseF64: F64Parser)
    requires Get(j, "id").None? && Get(j, "slug") == Some(Str("alternative-id"))
    requires Get(j, "question") == Some(Str("Alternative Title"))
    requires Get(j, "tokens").None? && Get(j, "currentPrice").None? && Get(j, "price") == Some(Num(price))
    requires Get(j, "volumeNum") == Some(Num(volume))
    ensures var r := ParseSingleMarket(j, parseF64);
            && r.Success? && r.value.id == "alternative-id" && r.value.title == "Alternative Title"
            && r.value.current_price == Some(price) && r.value.volume == Some(volume)
  {
    IdRule(j, parseF64);
    TitleRule(j);
    VolumeRule(j, parseF64);
  }

  /** The entry shape of the envelope test: an integer id and a question. */
  lemma QuestionEntry(j: Json, n: nat, q: string, parseF64: F64Parser)
    requires n < U64_LIMIT
    requires Get(j, "id") == Some(Num(Int(n))) && Get(j, "question") == Some(Str(q))
    ensures var r := ParseSingleMarket(j, parseF64);
            r.Success? && r.value.id == NatToDecimal(n) && r.value.title == q
  {
    IdRule(j, parseF64);
    TitleRule(j);
  }

  /** The envelope test: a bare array of entries with ids 1 and 2 gives the markets "1"
      and "2", in order, with their questions as titles. */
  lemma ArrayEnvelopeExample(e1: Json, e2: Json, parseF64: F64Parser)
    requires Get(e1, "id") == Some(Num(Int(1))) && Get(e1, "question") == Some(Str("Market 1"))
    requires Get(e2, "id") == Some(Num(Int(2))) && Get(e2, "question") == Some(Str("Market 2"))
    ensures var ms := ParsedEntries(Entries(Arr([e1, e2])), parseF64);
            |ms| == 2 && ms[0].id == "1" && ms[0].title == "Market 1" && ms[1].id == "2" && ms[1].title == "Market 2"
  {
    assert NatToDecimal(1) == "1" && NatToDecimal(2) == "2";
    QuestionEntry(e1, 1, "Market 1", parseF64);
    QuestionEntry(e2, 2, "Market 2", parseF64);
    var r1 := ParseSingleMarket(e1, parseF64);
    var r2 := ParseSingleMarket(e2, parseF64);
    assert [e1, e2][..1] == [e1];
    assert [e1][..0] == [];
    assert ParsedEntries([e1], parseF64) == [r1.value];
    assert ParsedEntries([e1, e2], parseF64) == [r1.value, r2.value];
  }
}
