/**
 The news dataset of src/yfin/datasets/news.py: articles and their links to symbols, taken from
 one nested payload.
 */
module News {
  import opened Wrappers
  import opened Text
  import opened Storage
  import opened Datasets

  /** `content` of an item; `cells` are the other columns of the article row. */
  datatype Content = Content(title: Option<string>, published: Option<int>, cells: Row, tickers: seq<Option<string>>)

  datatype Item = NotADict | Item(id: Option<string>, content: Option<Content>)

  const SENTINELS: set<string> := {"-", "", "N/A", "n/a", "None", "null"}

  /** `key_value`: text for a key is stripped and never cut; what does not fit is no key. */
  function KeyValue(value: Option<string>, longest: nat): Option<string> {
    if value.None? || Strip(value.value) in SENTINELS || |Strip(value.value)| > longest then None
    else Some(Strip(value.value))
  }

  /** The item becomes an article: it has a key, a title and a date. */
  predicate Accepted(item: Item) {
    && item.Item? && KeyValue(item.id, 36).Some? && item.content.Some?
    && item.content.value.title.Some? && item.content.value.published.Some?
  }

  function IdOf(item: Item): string
    requires Accepted(item)
  {
    KeyValue(item.id, 36).value
  }

  function ArticleRow(item: Item): Row
    requires Accepted(item)
  {
    var content := item.content.value;
    var named := content.cells["news_id" := Str(IdOf(item))]["title" := Str(content.title.value)];
    named["pub_date" := Int(content.published.value)]
  }

  /** The named symbols in their stored form; `canonical` is `normalize_symbol`. */
  function Tickers(tickers: seq<Option<string>>, canonical: string -> string): seq<string> {
    if tickers == [] then []
    else
      var n := |tickers| - 1;
      var text := KeyValue(tickers[n], 32);
      Tickers(tickers[..n], canonical) + if text.Some? then [canonical(text.value)] else []
  }

  /** The symbols of an article, the requested one always among them. */
  function Symbols(item: Item, symbol: string, canonical: string -> string): seq<string>
    requires Accepted(item)
  {
    var named := Tickers(item.content.value.tickers, canonical);
    if symbol in named then named else named + [symbol]
  }

  datatype Link = Link(id: string, symbol: string)

  function LinkRow(link: Link): Row {
    map["news_id" := Str(link.id), "symbol" := Str(link.symbol), "is_known" := Value.Bool(false)]
  }

  function LinkRows(links: seq<Link>): seq<Row> {
    seq(|links|, i requires 0 <= i < |links| => LinkRow(links[i]))
  }

  // ------------------------------------------------------ the two row lists

  function Ids(items: seq<Item>): set<string> {
    set i | 0 <= i < |items| && Accepted(items[i]) :: IdOf(items[i])
  }

  /** One row for each article, from its first item. */
  function Articles(items: seq<Item>): seq<Row> {
    if items == [] then []
    else
      var n := |items| - 1;
      Articles(items[..n])
      + if Accepted(items[n]) && IdOf(items[n]) !in Ids(items[..n]) then [ArticleRow(items[n])] else []
  }

  function AddLinks(links: seq<Link>, id: string, symbols: seq<string>): seq<Link> {
    if symbols == [] then links
    else
      var n := |symbols| - 1;
      var before, link := AddLinks(links, id, symbols[..n]), Link(id, symbols[n]);
      if link in before then before else before + [link]
  }

  function Links(items: seq<Item>, symbol: string, canonical: string -> string): seq<Link> {
    if items == [] then []
    else
      var n := |items| - 1;
      var before := Links(items[..n], symbol, canonical);
      if Accepted(items[n]) then AddLinks(before, IdOf(items[n]), Symbols(items[n], symbol, canonical)) else before
  }

  /** The columns that `cells` may hold. */
  const CONTENT_CELLS: set<string> := {
    "summary", "description", "content_type", "display_time", "provider_name", "provider_url", "provider_source_id",
    "canonical_url", "click_through_url", "thumbnail_url", "thumbnail_width", "thumbnail_height", "raw_json"}

  const NEWS_UPDATE: seq<string> := [
    "title", "summary", "description", "content_type", "pub_date", "display_time", "provider_name", "provider_url",
    "provider_source_id", "canonical_url", "click_through_url", "thumbnail_url", "thumbnail_width",
      "thumbnail_height", "raw_json"]

  function NewsWrite(rows: seq<Row>): TableWrite {
    TableWrite("news", rows, ["news_id"], NEWS_UPDATE, Upsert, ["symbol"], None)
  }

  function LinksWrite(rows: seq<Row>): TableWrite {
    TableWrite("news_symbols", rows, ["news_id", "symbol"], ["is_known"], Upsert, ["symbol"], None)
  }

  /** The result of a payload: nothing at all if it has no article. */
  function ResultOf(items: seq<Item>, symbol: string, canonical: string -> string): NormalizedResult {
    if Articles(items) == [] then NormalizedResult([], map[])
    else NormalizedResult([NewsWrite(Articles(items)), LinksWrite(LinkRows(Links(items, symbol, canonical)))], map[])
  }

  /** `normalize`. */
  method Normalize(items: seq<Item>, symbol: string, canonical: string -> string) returns (result: NormalizedResult)
    ensures result == ResultOf(items, symbol, canonical)
  {
    var newsRows: seq<Row>, links: seq<Link> := [], [];
    var seenNews: set<string>, seenLinks: set<Link> := {}, {};
    var i := 0;
    while i < |items|
      invariant 0 <= i <= |items|
      invariant newsRows == Articles(items[..i]) && seenNews == Ids(items[..i])
      invariant links == Links(items[..i], symbol, canonical)
      invariant forall link :: link in seenLinks <==> link in links
    {
      var item := items[i];
      assert items[..i + 1][..i] == items[..i];
      IdsLast(items[..i + 1]);
      i := i + 1;
      if !Accepted(item) { continue; }
      var id := IdOf(item);
      if id !in seenNews {
        seenNews := seenNews + {id};
        newsRows := newsRows + [ArticleRow(item)];
      }
      var symbols := CollectSymbols(item, symbol, canonical);
      ghost var before := links;
      var k := 0;
      while k < |symbols|
        invariant 0 <= k <= |symbols|
        invariant links == AddLinks(before, id, symbols[..k])
        invariant forall link :: link in seenLinks <==> link in links
      {
        var link := Link(id, symbols[k]);
        assert symbols[..k + 1][..k] == symbols[..k];
        k := k + 1;
        if link in seenLinks { continue; }
        seenLinks := seenLinks + {link};
        links := links + [link];
      }
      assert symbols[..k] == symbols;
    }
    assert items[..i] == items;
    if newsRows == [] { return NormalizedResult([], map[]); }
    return NormalizedResult([NewsWrite(newsRows), LinksWrite(LinkRows(links))], map[]);
  }

  method CollectSymbols(item: Item, symbol: string, canonical: string -> string) returns (symbols: seq<string>)
    requires Accepted(item)
    ensures symbols == Symbols(item, symbol, canonical)
  {
    var tickers := item.content.value.tickers;
    symbols := [];
    var i := 0;
    while i < |tickers|
      invariant 0 <= i <= |tickers|
      invariant symbols == Tickers(tickers[..i], canonical)
    {
      assert tickers[..i + 1][..i] == tickers[..i];
      var text := KeyValue(tickers[i], 32);
      if text.Some? {
        symbols := symbols + [canonical(text.value)];
      }
      i := i + 1;
    }
    assert tickers[..i] == tickers;
    if symbol !in symbols {
      symbols := symbols + [symbol];
    }
  }

  /** `upsert`: links are marked with whether their symbol is known, then everything is written. */
  method NewsUpsert(writer: RowWriter, universe: set<Value>, result: NormalizedResult) returns (stats: WriteStats)
    modifies writer
    ensures writer.tables == WrittenAll(old(writer.tables), MarkedWrites(result.writes, universe))
    ensures stats.View() == CountedAll(Fresh(result), MarkedWrites(result.writes, universe))
  {
    var select := (w: TableWrite) => w.table == "news_symbols" && w.rows != [];
    var marked := MarkKnownIn(universe, result, select, "symbol");
    assert marked.writes == MarkedWrites(result.writes, universe);
    stats := PlainUpsert(writer, marked);
  }

  function MarkedWrite(w: TableWrite, universe: set<Value>): TableWrite {
    if w.table == "news_symbols" && w.rows != [] then Marked(w, "symbol", universe) else w
  }

  function MarkedWrites(writes: seq<TableWrite>, universe: set<Value>): seq<TableWrite> {
    seq(|writes|, i requires 0 <= i < |writes| => MarkedWrite(writes[i], universe))
  }

  // ------------------------------------------------------------------ lemmas

  lemma IdsLast(items: seq<Item>)
    requires items != []
    ensures var n := |items| - 1;
      Ids(items) == Ids(items[..n]) + if Accepted(items[n]) then {IdOf(items[n])} else {}
  {
    var n := |items| - 1;
    forall id | id in Ids(items) ensures id in Ids(items[..n]) || (Accepted(items[n]) && id == IdOf(items[n])) {
      var i :| 0 <= i < |items| && Accepted(items[i]) && IdOf(items[i]) == id;
      if i < n { assert items[..n][i] == items[i]; }
    }
    forall id | id in Ids(items[..n]) ensures id in Ids(items) {
      var i :| 0 <= i < n && Accepted(items[..n][i]) && IdOf(items[..n][i]) == id;
      assert items[i] == items[..n][i];
    }
  }

  /** The text that a value gives for a key: stripped, no placeholder, and no longer than the column. */
  ghost predicate KeyFits(value: Option<string>, longest: nat, text: string) {
    && value.Some? && text == Strip(value.value) && |text| <= longest
    && text != "" && text != "-" && text != "N/A" && text != "n/a" && text != "None" && text != "null"
  }

  lemma KeyValueIff(value: Option<string>, longest: nat, text: string)
    ensures KeyValue(value, longest) == Some(text) <==> KeyFits(value, longest, text)
  {
  }

  /** The item is an article with this id. */
  ghost predicate IsArticle(item: Item, id: string) {
    && item.Item? && KeyFits(item.id, 36, id)
    && item.content.Some? && item.content.value.title.Some? && item.content.value.published.Some?
  }

  lemma AcceptedIff(item: Item, id: string)
    ensures IsArticle(item, id) <==> Accepted(item) && IdOf(item) == id
  {
    if item.Item? { KeyValueIff(item.id, 36, id); }
  }

  ghost predicate SomeArticle(items: seq<Item>, id: string) {
    exists i :: 0 <= i < |items| && IsArticle(items[i], id)
  }

  lemma IdsAreArticles(items: seq<Item>, id: string)
    ensures id in Ids(items) <==> SomeArticle(items, id)
  {
    forall i | 0 <= i < |items| ensures IsArticle(items[i], id) <==> Accepted(items[i]) && IdOf(items[i]) == id {
      AcceptedIff(items[i], id);
    }
  }

  /** The row holds the id, the title, the date and the other cells of its article. */
  ghost predicate Holds(row: Row, id: string, content: Content) {
    && row.Keys == {"news_id", "title", "pub_date"} + content.cells.Keys
    && row["news_id"] == Str(id)
    && content.title.Some? && row["title"] == Str(content.title.value)
    && content.published.Some? && row["pub_date"] == Int(content.published.value)
    && forall column :: column in content.cells && column !in {"news_id", "title", "pub_date"} ==>
      row[column] == content.cells[column]
  }

  /** The row is made from the first item of its article. */
  ghost predicate FromFirst(items: seq<Item>, row: Row) {
    exists i, id :: 0 <= i < |items| && IsArticle(items[i], id) && Holds(row, id, items[i].content.value)
      && !SomeArticle(items[..i], id)
  }

  function RowId(row: Row): Value {
    Get(row, "news_id")
  }

  /** Some row has this id. */
  ghost predicate HasId(rows: seq<Row>, id: string) {
    exists i :: 0 <= i < |rows| && RowId(rows[i]) == Str(id)
  }

  /** There is one row for each article, and it comes from the first item of that article. */
  lemma {:induction false} ArticlesAreFirstItems(items: seq<Item>)
    ensures forall i :: 0 <= i < |Articles(items)| ==> FromFirst(items, Articles(items)[i])
    ensures forall i, j :: 0 <= i < j < |Articles(items)| ==> RowId(Articles(items)[i]) != RowId(Articles(items)[j])
    ensures forall id :: SomeArticle(items, id) <==> HasId(Articles(items), id)
  {
    if items != [] {
      var n := |items| - 1;
      ArticlesAreFirstItems(items[..n]);
      LastArticle(items);
      forall i | 0 <= i < |Articles(items)| ensures FromFirst(items, Articles(items)[i]) { NextIsFirst(items, i); }
      forall id ensures SomeArticle(items, id) <==> HasId(Articles(items), id) { NextIds(items, id); }
      if |Articles(items)| > |Articles(items[..n])| {
        assert !HasId(Articles(items[..n]), IdOf(items[n]));
      }
    }
  }

  lemma RowFromFirst(items: seq<Item>, row: Row)
    requires items != [] && FromFirst(items[..|items| - 1], row)
    ensures FromFirst(items, row)
  {
    var n := |items| - 1;
    var i, id :| 0 <= i < n && IsArticle(items[..n][i], id) && Holds(row, id, items[..n][i].content.value)
      && !SomeArticle(items[..n][..i], id);
    assert items[..n][..i] == items[..i] && items[i] == items[..n][i];
  }

  lemma SomeArticleLast(items: seq<Item>, id: string)
    requires items != []
    ensures SomeArticle(items, id)
            <==> SomeArticle(items[..|items| - 1], id) || IsArticle(items[|items| - 1], id)
  {
    IdsAreArticles(items, id);
    IdsAreArticles(items[..|items| - 1], id);
    IdsLast(items);
    AcceptedIff(items[|items| - 1], id);
  }

  lemma RowHolds(item: Item)
    requires Accepted(item)
    ensures Holds(ArticleRow(item), IdOf(item), item.content.value) && IsArticle(item, IdOf(item))
  {
    AcceptedIff(item, IdOf(item));
  }

  /** The last item adds a row exactly if it is the first of its article. */
  lemma LastArticle(items: seq<Item>)
    requires items != []
    ensures var n := |items| - 1;
      if Accepted(items[n]) && !SomeArticle(items[..n], IdOf(items[n])) then
        && Articles(items) == Articles(items[..n]) + [ArticleRow(items[n])]
        && IsArticle(items[n], IdOf(items[n])) && Holds(ArticleRow(items[n]), IdOf(items[n]), items[n].content.value)
      else Articles(items) == Articles(items[..n])
  {
    var n := |items| - 1;
    if Accepted(items[n]) {
      RowHolds(items[n]);
      IdsAreArticles(items[..n], IdOf(items[n]));
    }
  }

  lemma NextIsFirst(items: seq<Item>, i: nat)
    requires items != [] && i < |Articles(items)|
    requires i < |Articles(items[..|items| - 1])| ==> FromFirst(items[..|items| - 1], Articles(items)[i])
    ensures FromFirst(items, Articles(items)[i])
  {
    LastArticle(items);
    if i < |Articles(items[..|items| - 1])| { RowFromFirst(items, Articles(items)[i]); }
  }

  lemma NextIds(items: seq<Item>, id: string)
    requires items != []
    requires SomeArticle(items[..|items| - 1], id) <==> HasId(Articles(items[..|items| - 1]), id)
    ensures SomeArticle(items, id) <==> HasId(Articles(items), id)
  {
    var n := |items| - 1;
    LastArticle(items);
    SomeArticleLast(items, id);
    AcceptedIff(items[n], id);
    if |Articles(items)| > |Articles(items[..n])| {
      IdAppended(Articles(items[..n]), ArticleRow(items[n]), id);
    }
  }

  lemma IdAppended(before: seq<Row>, row: Row, id: string)
    ensures HasId(before + [row], id) <==> HasId(before, id) || RowId(row) == Str(id)
  {
    IdInLonger(before, [row], id);
    if RowId(row) == Str(id) { assert RowId([row][0]) == Str(id); }
  }

  lemma IdInLonger(before: seq<Row>, more: seq<Row>, id: string)
    ensures HasId(before + more, id) <==> HasId(before, id) || HasId(more, id)
  {
    var all := before + more;
    if i :| 0 <= i < |all| && RowId(all[i]) == Str(id) {
      assert i < |before| || RowId(more[i - |before|]) == Str(id);
    }
    if i :| 0 <= i < |before| && RowId(before[i]) == Str(id) {
      assert RowId(all[i]) == Str(id);
    }
    if i :| 0 <= i < |more| && RowId(more[i]) == Str(id) {
      assert RowId(all[|before| + i]) == Str(id);
    }
  }

  ghost predicate NoRepeat(links: seq<Link>) {
    forall i, j :: 0 <= i < j < |links| ==> links[i] != links[j]
  }

  lemma {:induction false} AddLinksMembers(links: seq<Link>, id: string, symbols: seq<string>)
    requires NoRepeat(links)
    ensures NoRepeat(AddLinks(links, id, symbols))
    ensures forall link :: link in AddLinks(links, id, symbols) <==>
              link in links || (link.id == id && link.symbol in symbols)
  {
    if symbols != [] {
      AddLinksMembers(links, id, symbols[..|symbols| - 1]);
      assert symbols == symbols[..|symbols| - 1] + [symbols[|symbols| - 1]];
    }
  }

  /** Some ticker of the item stands for this symbol. */
  ghost predicate NamesTicker(tickers: seq<Option<string>>, canonical: string -> string, symbol: string) {
    exists k, text :: 0 <= k < |tickers| && KeyFits(tickers[k], 32, text) && symbol == canonical(text)
  }

  /** Some item of this article has the symbol among its tickers, or the symbol is the requested one. */
  ghost predicate Named(items: seq<Item>, symbol: string, canonical: string -> string, link: Link) {
    exists i :: 0 <= i < |items| && IsArticle(items[i], link.id)
      && (link.symbol == symbol || NamesTicker(items[i].content.value.tickers, canonical, link.symbol))
  }

  lemma NamesTickerLast(tickers: seq<Option<string>>, canonical: string -> string, symbol: string)
    requires tickers != []
    ensures var n := |tickers| - 1;
      NamesTicker(tickers, canonical, symbol) <==>
        NamesTicker(tickers[..n], canonical, symbol)
        || (KeyValue(tickers[n], 32).Some? && symbol == canonical(KeyValue(tickers[n], 32).value))
  {
    var n := |tickers| - 1;
    if k, text :| 0 <= k < |tickers| && KeyFits(tickers[k], 32, text) && symbol == canonical(text) {
      KeyValueIff(tickers[k], 32, text);
      if k < n { assert tickers[..n][k] == tickers[k]; }
    }
    if k, text :| 0 <= k < n && KeyFits(tickers[..n][k], 32, text) && symbol == canonical(text) {
      assert tickers[k] == tickers[..n][k];
    }
    if KeyValue(tickers[n], 32).Some? { KeyValueIff(tickers[n], 32, KeyValue(tickers[n], 32).value); }
  }

  lemma {:induction false} TickersAreNamed(tickers: seq<Option<string>>, canonical: string -> string, symbol: string)
    ensures symbol in Tickers(tickers, canonical) <==> NamesTicker(tickers, canonical, symbol)
  {
    if tickers != [] {
      TickersAreNamed(tickers[..|tickers| - 1], canonical, symbol);
      NamesTickerLast(tickers, canonical, symbol);
    }
  }

  lemma NamedLast(items: seq<Item>, symbol: string, canonical: string -> string, link: Link)
    requires items != []
    ensures var n := |items| - 1;
      Named(items, symbol, canonical, link) <==>
        Named(items[..n], symbol, canonical, link)
        || (Accepted(items[n]) && link.id == IdOf(items[n]) && link.symbol in Symbols(items[n], symbol, canonical))
  {
    var n := |items| - 1;
    AcceptedIff(items[n], link.id);
    if Accepted(items[n]) { TickersAreNamed(items[n].content.value.tickers, canonical, link.symbol); }
    if Named(items[..n], symbol, canonical, link) {
      var i :| 0 <= i < n && IsArticle(items[..n][i], link.id)
        && (link.symbol == symbol || NamesTicker(items[..n][i].content.value.tickers, canonical, link.symbol));
      assert items[i] == items[..n][i];
    }
    if Named(items, symbol, canonical, link) {
      var i :| 0 <= i < |items| && IsArticle(items[i], link.id)
        && (link.symbol == symbol || NamesTicker(items[i].content.value.tickers, canonical, link.symbol));
      if i < n { assert items[i] == items[..n][i]; }
    }
  }

  /** Links are exactly what all items of an article name, once each, later items included. */
  lemma {:induction false} LinksAreExact(items: seq<Item>, symbol: string, canonical: string -> string)
    ensures NoRepeat(Links(items, symbol, canonical))
    ensures forall link :: link in Links(items, symbol, canonical) <==> Named(items, symbol, canonical, link)
  {
    if items != [] {
      var n := |items| - 1;
      LinksAreExact(items[..n], symbol, canonical);
      if Accepted(items[n]) {
        AddLinksMembers(Links(items[..n], symbol, canonical), IdOf(items[n]), Symbols(items[n], symbol, canonical));
      }
      forall link ensures link in Links(items, symbol, canonical) <==> Named(items, symbol, canonical, link) {
        NamedLast(items, symbol, canonical, link);
      }
    }
  }

  /** Every link names an article of the same result, and every article is linked to the requested symbol. */
  lemma {:induction false} LinksAreSound(items: seq<Item>, symbol: string, canonical: string -> string)
    ensures forall link :: link in Links(items, symbol, canonical) ==> HasId(Articles(items), link.id)
    ensures forall id :: HasId(Articles(items), id) ==> Link(id, symbol) in Links(items, symbol, canonical)
    ensures Articles(items) == [] <==> Links(items, symbol, canonical) == []
  {
    var links := Links(items, symbol, canonical);
    LinksAreExact(items, symbol, canonical);
    ArticlesAreFirstItems(items);
    forall link | link in links ensures HasId(Articles(items), link.id) {
      assert Named(items, symbol, canonical, link);
      assert SomeArticle(items, link.id);
    }
    forall id | HasId(Articles(items), id) ensures Link(id, symbol) in links {
      var i :| 0 <= i < |items| && IsArticle(items[i], id);
      assert Named(items, symbol, canonical, Link(id, symbol));
    }
    if links != [] { assert links[0] in links; }
    if Articles(items) != [] {
      var id :| RowId(Articles(items)[0]) == Str(id);
      assert HasId(Articles(items), id);
    }
  }

  // ------------------------------------------------------------------ stored

  function ArticleKey(id: Value): Key {
    [id]
  }

  /** Every stored link has its stored article, as the foreign key demands. */
  ghost predicate NoDanglingLink(store: Store) {
    forall key :: key in TableOf(store, "news_symbols") ==> |key| == 2 && ArticleKey(key[0]) in TableOf(store, "news")
  }

  function After(store: Store, universe: set<Value>, result: NormalizedResult): Store {
    WrittenAll(store, MarkedWrites(result.writes, universe))
  }

  function MarkedLinks(items: seq<Item>, symbol: string, canonical: string -> string,
                       universe: set<Value>): TableWrite {
    MarkedWrite(LinksWrite(LinkRows(Links(items, symbol, canonical))), universe)
  }

  lemma TablesAfter(store: Store, universe: set<Value>, items: seq<Item>, symbol: string, canonical: string -> string)
    requires Articles(items) != []
    ensures var after := After(store, universe, ResultOf(items, symbol, canonical));
      && TableOf(after, "news") == WrittenTable(TableOf(store, "news"), NewsWrite(Articles(items)))
      && TableOf(after, "news_symbols")
         == WrittenTable(TableOf(store, "news_symbols"), MarkedLinks(items, symbol, canonical, universe))
  {
    var writes := MarkedWrites(ResultOf(items, symbol, canonical).writes, universe);
    assert writes[0] == NewsWrite(Articles(items)) && writes[1] == MarkedLinks(items, symbol, canonical, universe);
    EachTableOnce(store, writes, 0);
    EachTableOnce(store, writes, 1);
  }

  /** The row that is written for a link. */
  lemma MarkedLinkRow(items: seq<Item>, symbol: string, canonical: string -> string, universe: set<Value>, i: nat)
    requires i < |Links(items, symbol, canonical)|
    ensures var w, link := MarkedLinks(items, symbol, canonical, universe), Links(items, symbol, canonical)[i];
      && |w.rows| == |Links(items, symbol, canonical)|
      && Project(w.rows[i], w.keyColumns) == [Str(link.id), Str(link.symbol)]
      && Get(w.rows[i], "is_known") == Value.Bool(link.symbol != "" && Str(link.symbol) in universe)
      && w.rows[i].Keys == {"news_id", "symbol", "is_known"}
  {
    var w, link := MarkedLinks(items, symbol, canonical, universe), Links(items, symbol, canonical)[i];
    assert w.rows[i] == MarkedRow(LinkRow(link), "symbol", universe);
    assert |Project(w.rows[i], w.keyColumns)| == 2;
  }

  lemma MarkedLinksDistinct(items: seq<Item>, symbol: string, canonical: string -> string, universe: set<Value>)
    ensures var w := MarkedLinks(items, symbol, canonical, universe); DistinctKeys(w.rows, w.keyColumns)
  {
    var w, links := MarkedLinks(items, symbol, canonical, universe), Links(items, symbol, canonical);
    LinksAreExact(items, symbol, canonical);
    forall i, j | 0 <= i < j < |w.rows| ensures Project(w.rows[i], w.keyColumns) != Project(w.rows[j], w.keyColumns) {
      assert |w.rows| == |links|;
      MarkedLinkRow(items, symbol, canonical, universe, i);
      MarkedLinkRow(items, symbol, canonical, universe, j);
    }
  }

  lemma ArticleKeys(items: seq<Item>, i: nat)
    requires i < |Articles(items)|
    ensures Project(Articles(items)[i], ["news_id"]) == ArticleKey(RowId(Articles(items)[i]))
  {
  }

  lemma LinkKeyHasArticle(items: seq<Item>, symbol: string, canonical: string -> string, universe: set<Value>, key: Key)
    requires var w := MarkedLinks(items, symbol, canonical, universe); key in KeysOf(w.rows, w.keyColumns)
    ensures |key| == 2 && ArticleKey(key[0]) in KeysOf(Articles(items), ["news_id"])
  {
    var w, links := MarkedLinks(items, symbol, canonical, universe), Links(items, symbol, canonical);
    var i :| 0 <= i < |w.rows| && Project(w.rows[i], w.keyColumns) == key;
    assert |w.rows| == |links|;
    MarkedLinkRow(items, symbol, canonical, universe, i);
    LinksAreSound(items, symbol, canonical);
    assert links[i] in links;
    var j :| 0 <= j < |Articles(items)| && RowId(Articles(items)[j]) == Str(links[i].id);
    ArticleKeys(items, j);
  }

  /** Any result that is upserted keeps every stored link at a stored article. */
  lemma {:induction false} UpsertKeepsForeignKey(store: Store, universe: set<Value>, items: seq<Item>, symbol: string,
                                                 canonical: string -> string)
    requires NoDanglingLink(store)
    ensures NoDanglingLink(After(store, universe, ResultOf(items, symbol, canonical)))
  {
    if Articles(items) == [] {
      assert After(store, universe, ResultOf(items, symbol, canonical)) == store;
    } else {
      var after := After(store, universe, ResultOf(items, symbol, canonical));
      var g, w := NewsWrite(Articles(items)), MarkedLinks(items, symbol, canonical, universe);
      TablesAfter(store, universe, items, symbol, canonical);
      BatchKeys(g.rows, g.keyColumns, Columns(g.rows));
      BatchKeys(w.rows, w.keyColumns, Columns(w.rows));
      forall key | key in TableOf(after, "news_symbols") && key !in TableOf(store, "news_symbols")
        ensures |key| == 2 && ArticleKey(key[0]) in TableOf(after, "news")
      {
        LinkKeyHasArticle(items, symbol, canonical, universe, key);
      }
    }
  }

  lemma UpdateIsComplete(column: string)
    requires column in CONTENT_CELLS + {"title", "pub_date"}
    ensures column in NEWS_UPDATE
  {
    var u := NEWS_UPDATE;
    assert u[0] == "title" && u[1] == "summary" && u[2] == "description" && u[3] == "content_type";
    assert u[4] == "pub_date" && u[5] == "display_time" && u[6] == "provider_name" && u[7] == "provider_url";
    assert u[8] == "provider_source_id" && u[9] == "canonical_url" && u[10] == "click_through_url";
    assert u[11] == "thumbnail_url" && u[12] == "thumbnail_width" && u[13] == "thumbnail_height";
    assert u[14] == "raw_json";
  }

  lemma LastArticleOfKey(items: seq<Item>, i: nat)
    requires i < |Articles(items)|
    ensures LastOfKey(Articles(items), ["news_id"], i)
    ensures Project(Articles(items)[i], ["news_id"]) == [RowId(Articles(items)[i])]
  {
    var rows := Articles(items);
    ArticlesAreFirstItems(items);
    ArticleKeys(items, i);
    forall j | i < j < |rows| ensures Project(rows[j], ["news_id"]) != Project(rows[i], ["news_id"]) {
      ArticleKeys(items, j);
    }
  }

  lemma ArticlesDistinct(items: seq<Item>)
    ensures DistinctKeys(Articles(items), ["news_id"])
  {
    var rows := Articles(items);
    forall i, j | 0 <= i < j < |rows| ensures Project(rows[i], ["news_id"]) != Project(rows[j], ["news_id"]) {
      LastArticleOfKey(items, i);
    }
  }

  lemma ArticleColumns(items: seq<Item>, i: nat)
    requires i < |Articles(items)|
    requires forall k :: 0 <= k < |items| && items[k].Item? && items[k].content.Some? ==>
      items[k].content.value.cells.Keys <= CONTENT_CELLS
    ensures Articles(items)[i].Keys <= CONTENT_CELLS + {"news_id", "title", "pub_date"}
  {
    ArticlesAreFirstItems(items);
    assert FromFirst(items, Articles(items)[i]);
  }

  /** After the upsert every article is stored with all its cells. */
  lemma ArticlesAreStored(store: Store, universe: set<Value>, items: seq<Item>, symbol: string,
                          canonical: string -> string, i: nat, column: string)
    requires i < |Articles(items)|
    requires forall k :: 0 <= k < |items| && items[k].Item? && items[k].content.Some? ==>
      items[k].content.value.cells.Keys <= CONTENT_CELLS
    ensures var row := Articles(items)[i];
      var table := TableOf(After(store, universe, ResultOf(items, symbol, canonical)), "news");
      && [RowId(row)] in table
      && (column in row && column != "news_id" ==> Get(table[[RowId(row)]], column) == row[column])
  {
    var rows, w := Articles(items), NewsWrite(Articles(items));
    TablesAfter(store, universe, items, symbol, canonical);
    LastArticleOfKey(items, i);
    WrittenCell(TableOf(store, "news"), w, i, column);
    if column in rows[i] && column != "news_id" {
      ArticleColumns(items, i);
      UpdateIsComplete(column);
      assert Carries(w, column);
    }
  }

  /** After the upsert every link of the result is stored and says whether its symbol is in the universe. */
  lemma {:induction false} LinksAreMarked(store: Store, universe: set<Value>, items: seq<Item>, symbol: string,
                                          canonical: string -> string, link: Link)
    requires link in Links(items, symbol, canonical)
    ensures var table := TableOf(After(store, universe, ResultOf(items, symbol, canonical)), "news_symbols");
      && [Str(link.id), Str(link.symbol)] in table
      && Get(table[[Str(link.id), Str(link.symbol)]], "is_known")
            == Value.Bool(link.symbol != "" && Str(link.symbol) in universe)
  {
    var links, w := Links(items, symbol, canonical), MarkedLinks(items, symbol, canonical, universe);
    LinksAreSound(items, symbol, canonical);
    TablesAfter(store, universe, items, symbol, canonical);
    var i :| 0 <= i < |links| && links[i] == link;
    MarkedLinkRow(items, symbol, canonical, universe, i);
    MarkedLinksDistinct(items, symbol, canonical, universe);
    WrittenCell(TableOf(store, "news_symbols"), w, i, "is_known");
    assert w.updateColumns[0] == "is_known";
    assert Carries(w, "is_known");
  }

  /** Every article and every link of the result is counted once. */
  lemma {:induction false} NewsRowsAreCounted(universe: set<Value>, items: seq<Item>, symbol: string,
                                              canonical: string -> string)
    ensures var result := ResultOf(items, symbol, canonical);
      var stats := CountedAll(Fresh(result), MarkedWrites(result.writes, universe));
      && Count(stats.attempted, "news") == |Articles(items)|
      && Count(stats.attempted, "news_symbols") == |Links(items, symbol, canonical)|
  {
    var result := ResultOf(items, symbol, canonical);
    var writes := MarkedWrites(result.writes, universe);
    LinksAreSound(items, symbol, canonical);
    if Articles(items) == [] {
      assert writes == [];
    } else {
      MarkedLinksDistinct(items, symbol, canonical, universe);
      ArticlesDistinct(items);
      assert writes == [NewsWrite(Articles(items)), MarkedLinks(items, symbol, canonical, universe)];
      TwoTables(writes);
      CountedRows(Fresh(result), writes, "news");
      CountedRows(Fresh(result), writes, "news_symbols");
    }
  }

  lemma TwoTables(writes: seq<TableWrite>)
    requires |writes| == 2 && writes[0].table != writes[1].table
    ensures RowsFor(writes, writes[0].table) == |writes[0].rows|
    ensures RowsFor(writes, writes[1].table) == |writes[1].rows|
  {
    assert writes[..1][..0] == [] && writes[..1][0] == writes[0];
    assert forall table :: RowsFor(writes[..1], table) == if writes[0].table == table then |writes[0].rows| else 0;
  }
}
