/**
 * The five request handlers of the article API (index.ts). A handler that
 * writes first computes, as a function, the statement it binds or the
 * response it answers with instead; its outcome (the rows and id counter
 * afterwards, and the response) is a function of the table before and of
 * the store's answer, and the method that runs it on the table is proved
 * to produce exactly that outcome. The reading handlers are functions of
 * the rows.
 */
module Handlers {
  import opened Wrappers
  import opened Js
  import opened Slugs
  import opened Store
  import opened Queries
  import opened Http

  // ---------------------------------------------------------------------
  // POST /articles
  // ---------------------------------------------------------------------

  /**
   * Destructures the body, requires a truthy title, slugifies it and binds
   * the INSERT's parameters; `status` falls back to 'Draft'. A body that
   * does not parse, a `null` body and a truthy title that is not a string
   * (so `toLowerCase` is not a function) all throw and answer 500.
   */
  function ArticleToAdd(payload: Payload): (r: Result<Insertion, Response>)
    ensures r.Err? ==> HasCors(r.error) && (r.error.status == 400 || r.error.status == 500)
    ensures r.Err? && r.error.status == 400 <==>
              payload.Parsed? && !Nullish(payload.value) && !Truthy(Prop(payload.value, "title"))
    ensures r.Err? && r.error.status == 400 ==> r.error == TextResponse(400, "Title is required")
    ensures r.Ok? <==>
              payload.Parsed? && !Nullish(payload.value) &&
              Prop(payload.value, "title").Str? && Prop(payload.value, "title").s != []
    ensures r.Ok? ==>
              var data := payload.value;
              var status := Prop(data, "status");
              r.value.title == Prop(data, "title").s &&
              r.value.status == (if Truthy(status) then status else Str("Draft")) &&
              r.value.contentHtml == Prop(data, "content_html") &&
              r.value.metaDescription == Prop(data, "meta_description") &&
              r.value.keywords == Prop(data, "keywords") &&
              r.value.featuredImage == Prop(data, "featured_image") &&
              r.value.category == Prop(data, "category") &&
              r.value.scheduledAt == Prop(data, "scheduled_at") &&
              r.value.createdAt.None?
  {
    match payload
    case Unparsable(m) => Err(FaultResponse(SyntaxError(m)))
    case Parsed(data) =>
      if Nullish(data) then Err(FaultResponse(TypeError))
      else
        var title := Prop(data, "title");
        if !Truthy(title) then Err(TextResponse(400, "Title is required"))
        else if !title.Str? then Err(FaultResponse(TypeError))
        else
          Ok(Insertion(
            title.s,
            Prop(data, "content_html"), Prop(data, "meta_description"), Prop(data, "keywords"),
            Prop(data, "featured_image"), Or(Prop(data, "status"), Str("Draft")),
            Prop(data, "category"), Prop(data, "scheduled_at"), None))
  }

  /** The rows and next id after a request, and its response. */
  datatype Outcome = Outcome(rows: seq<Article>, nextId: nat, response: Response)

  /**
   * POST /articles. `commit` is the store's answer to the INSERT and
   * `timestamp` its clock. Only a committed insert changes the table: it
   * gains exactly one row at the end and answers 201 with that row's slug.
   */
  function AddArticleOutcome(rows: seq<Article>, nextId: nat, payload: Payload, commit: Commit, timestamp: string)
    : (o: Outcome)
    ensures HasCors(o.response)
    ensures o.response.status == 201 <==> ArticleToAdd(payload).Ok? && commit.Committed?
    ensures o.response.status == 201 ==>
              o.rows == rows + [RowOf(ArticleToAdd(payload).value, nextId, timestamp)] &&
              o.nextId == nextId + 1 &&
              o.response == JsonResponse(201, Added("Article added successfully", o.rows[|rows|].slug))
    ensures o.response.status != 201 ==> o.rows == rows && o.nextId == nextId
    ensures ArticleToAdd(payload).Err? ==> o.response == ArticleToAdd(payload).error
    ensures ArticleToAdd(payload).Ok? && commit.NotCommitted? ==>
              o.response == TextResponse(500, "Failed to add article")
    ensures ArticleToAdd(payload).Ok? && commit.Failed? ==>
              o.response == FaultResponse(StorageError(commit.message))
    ensures WellFormed(rows, nextId) && 0 < nextId ==> WellFormed(o.rows, o.nextId) && 0 < o.nextId
  {
    match ArticleToAdd(payload)
    case Err(r) => Outcome(rows, nextId, r)
    case Ok(ins) =>
      match commit
      case Committed => ArticleAdded(rows, nextId, ins, timestamp)
      case NotCommitted => Outcome(rows, nextId, TextResponse(500, "Failed to add article"))
      case Failed(m) => Outcome(rows, nextId, FaultResponse(StorageError(m)))
  }

  /** A committed POST /articles: one row more, and 201 with its slug. */
  function ArticleAdded(rows: seq<Article>, nextId: nat, ins: Insertion, timestamp: string): (o: Outcome)
    ensures o.rows == rows + [RowOf(ins, nextId, timestamp)] && o.nextId == nextId + 1
    ensures o.response == JsonResponse(201, Added("Article added successfully", o.rows[|rows|].slug))
    ensures WellFormed(rows, nextId) && 0 < nextId ==> WellFormed(o.rows, o.nextId)
  {
    var row := RowOf(ins, nextId, timestamp);
    AppendOneKeepsWellFormed(rows, nextId, ins, timestamp);
    assert (rows + [row])[|rows|] == row;
    Outcome(rows + [row], nextId + 1, JsonResponse(201, Added("Article added successfully", row.slug)))
  }

  /**
   * The row a successful POST /articles adds: the given title, its slug
   * (a well-formed slug), the given status or 'Draft', the next id, and the
   * store's timestamp as its creation time.
   */
  lemma AddedRow(rows: seq<Article>, nextId: nat, payload: Payload, commit: Commit, timestamp: string)
    requires AddArticleOutcome(rows, nextId, payload, commit, timestamp).response.status == 201
    ensures var o := AddArticleOutcome(rows, nextId, payload, commit, timestamp);
      var data := payload.value;
      var row := o.rows[|rows|];
      |o.rows| == |rows| + 1 && o.rows[..|rows|] == rows &&
      row.id == nextId && row.title == Prop(data, "title").s &&
      row.slug == Slugify(row.title) && IsSlug(row.slug) &&
      row.status == (if Truthy(Prop(data, "status")) then Prop(data, "status") else Str("Draft")) &&
      row.createdAt == Str(timestamp) &&
      o.response.body == Added("Article added successfully", row.slug)
  {
    var o := AddArticleOutcome(rows, nextId, payload, commit, timestamp);
    assert o.rows[..|rows|] == rows;
  }

  /** Runs POST /articles on the table. */
  method AddArticle(db: Table, payload: Payload, commit: Commit, timestamp: string) returns (resp: Response)
    requires db.Valid()
    modifies db
    ensures db.Valid()
    ensures Outcome(db.rows, db.nextId, resp) ==
            AddArticleOutcome(old(db.rows), old(db.nextId), payload, commit, timestamp)
  {
    match ArticleToAdd(payload)
    case Err(r) =>
      resp := r;
    case Ok(ins) =>
      match commit
      case Committed =>
        db.Insert(ins, timestamp);
        resp := JsonResponse(201, Added("Article added successfully", Slugify(ins.title)));
      case NotCommitted =>
        resp := TextResponse(500, "Failed to add article");
      case Failed(m) =>
        resp := FaultResponse(StorageError(m));
  }

  // ---------------------------------------------------------------------
  // GET /articles, GET /articles/:slug, GET /export
  // ---------------------------------------------------------------------

  /** GET /articles: every row, newest first; `fault` is an error the store may throw. */
  function ListResponse(rows: seq<Article>, fault: Option<string>): (r: Response)
    ensures HasCors(r)
    ensures fault.Some? ==> r == FaultResponse(StorageError(fault.value))
    ensures fault.None? ==>
              r.status == 200 && r.headers == JSON_HEADERS && r.body.ArticleList? &&
              multiset(r.body.rows) == multiset(rows) && NewestFirstOrder(r.body.rows)
  {
    if fault.Some? then FaultResponse(StorageError(fault.value))
    else JsonResponse(200, ArticleList(NewestFirst(rows)))
  }

  /** GET /articles/:slug: the first row with that slug, or 404. */
  function LookupResponse(rows: seq<Article>, slug: string, fault: Option<string>): (r: Response)
    ensures HasCors(r)
    ensures fault.Some? ==> r == FaultResponse(StorageError(fault.value))
    ensures fault.None? ==>
              (r == TextResponse(404, "Article not found") <==>
               forall i :: 0 <= i < |rows| ==> rows[i].slug != slug)
    ensures fault.None? ==>
              forall i :: 0 <= i < |rows| && rows[i].slug == slug &&
                          (forall j :: 0 <= j < i ==> rows[j].slug != slug) ==>
                r == JsonResponse(200, OneArticle(rows[i]))
  {
    if fault.Some? then FaultResponse(StorageError(fault.value))
    else
      match FirstWithSlug(rows, slug)
      case None => TextResponse(404, "Article not found")
      case Some(a) =>
        assert forall i :: (0 <= i < |rows| && rows[i].slug == slug &&
                            (forall j :: 0 <= j < i ==> rows[j].slug != slug)) ==> rows[i] == a by {
          forall i | 0 <= i < |rows| && rows[i].slug == slug &&
                     (forall j :: 0 <= j < i ==> rows[j].slug != slug)
            ensures rows[i] == a
          {
            var k :| 0 <= k < |rows| && rows[k] == a && rows[k].slug == slug &&
                     forall j :: 0 <= j < k ==> rows[j].slug != slug;
            assert !(k < i) && !(i < k);
          }
        }
        JsonResponse(200, OneArticle(a))
  }

  /** GET /export: every row in table order, as a JSON attachment named articles.json. */
  function ExportResponse(rows: seq<Article>, fault: Option<string>): (r: Response)
    ensures HasCors(r)
    ensures fault.Some? ==> r == FaultResponse(StorageError(fault.value))
    ensures fault.None? ==>
              r.status == 200 && r.body == ArticleList(rows) &&
              "Content-Type" in r.headers && r.headers["Content-Type"] == "application/json" &&
              "Content-Disposition" in r.headers &&
              r.headers["Content-Disposition"] == "attachment; filename=\"articles.json\""
  {
    if fault.Some? then FaultResponse(StorageError(fault.value))
    else Response(200, EXPORT_HEADERS, ArticleList(rows))
  }

  // ---------------------------------------------------------------------
  // POST /import
  // ---------------------------------------------------------------------

  /** An element `slugify(item.title)` does not throw on. */
  predicate Importable(item: Value) {
    !Nullish(item) && Prop(item, "title").Str?
  }

  /**
   * The statement `articles.map` builds for one element: `slugify(title)`
   * throws unless the element has a string title (reading `.title` of
   * `null` throws too); `status`, `category`, `scheduled_at` and
   * `created_at` fall back to 'Draft', '', null and the clock's `now`.
   */
  function ImportedArticle(item: Value, now: string): (r: Result<Insertion, Fault>)
    ensures r.Ok? <==> Importable(item)
    ensures r.Err? ==> r.error == TypeError
    ensures r.Ok? ==> r.value.title == Prop(item, "title").s
    ensures r.Ok? ==>
              var status := Prop(item, "status");
              var category := Prop(item, "category");
              var scheduledAt := Prop(item, "scheduled_at");
              var createdAt := Prop(item, "created_at");
              r.value.status == (if Truthy(status) then status else Str("Draft")) &&
              r.value.category == (if Truthy(category) then category else Str("")) &&
              r.value.scheduledAt == (if Truthy(scheduledAt) then scheduledAt else Null) &&
              r.value.createdAt == Some(if Truthy(createdAt) then createdAt else Str(now))
    ensures r.Ok? ==>
              r.value.contentHtml == Prop(item, "content_html") &&
              r.value.metaDescription == Prop(item, "meta_description") &&
              r.value.keywords == Prop(item, "keywords") &&
              r.value.featuredImage == Prop(item, "featured_image")
  {
    if Nullish(item) then Err(TypeError)
    else
      var title := Prop(item, "title");
      if !title.Str? then Err(TypeError)
      else
        Ok(Insertion(
          title.s,
          Prop(item, "content_html"), Prop(item, "meta_description"), Prop(item, "keywords"),
          Prop(item, "featured_image"), Or(Prop(item, "status"), Str("Draft")),
          Or(Prop(item, "category"), Str("")), Or(Prop(item, "scheduled_at"), Null),
          Some(Or(Prop(item, "created_at"), Str(now)))))
  }

  /** `articles.map(...)`: one statement per element, in order, or the first element's TypeError. */
  function ImportedArticles(items: seq<Value>, now: string): (r: Result<seq<Insertion>, Fault>)
    ensures r.Ok? <==> forall i :: 0 <= i < |items| ==> Importable(items[i])
    ensures r.Ok? ==> |r.value| == |items| &&
                      forall i :: 0 <= i < |items| ==> r.value[i] == ImportedArticle(items[i], now).value
    ensures r.Err? ==> r.error == TypeError
  {
    if items == [] then Ok([])
    else
      var head := ImportedArticle(items[0], now);
      var tail := ImportedArticles(items[1..], now);
      if head.Err? then Err(head.error)
      else if tail.Err? then
        assert exists i :: 1 <= i < |items| && !Importable(items[i]) by {
          var k :| 0 <= k < |items[1..]| && !Importable(items[1..][k]);
          assert items[1..][k] == items[k + 1];
        }
        Err(tail.error)
      else
        var r := [head.value] + tail.value;
        assert forall i :: 0 <= i < |items| ==> Importable(items[i]) && r[i] == ImportedArticle(items[i], now).value by {
          forall i | 0 <= i < |items|
            ensures Importable(items[i]) && r[i] == ImportedArticle(items[i], now).value
          {
            if i > 0 {
              assert items[i] == items[1..][i - 1];
              assert r[i] == tail.value[i - 1];
            }
          }
        }
        Ok(r)
  }

  /**
   * The statements POST /import would run, or its answer without running
   * any: 400 for a body that is not an array, 500 for one that does not
   * parse or has an element without a string title.
   */
  function ArticlesToImport(payload: Payload, now: string): (r: Result<seq<Insertion>, Response>)
    ensures r.Err? ==> HasCors(r.error) && (r.error.status == 400 || r.error.status == 500)
    ensures r.Err? && r.error.status == 400 <==> payload.Parsed? && !payload.value.Arr?
    ensures r.Err? && r.error.status == 400 ==> r.error == TextResponse(400, "Expected an array of articles")
    ensures r.Ok? <==>
              payload.Parsed? && payload.value.Arr? &&
              forall i :: 0 <= i < |payload.value.items| ==>
                !Nullish(payload.value.items[i]) && Prop(payload.value.items[i], "title").Str?
    ensures r.Ok? ==>
              |r.value| == |payload.value.items| &&
              forall i :: 0 <= i < |r.value| ==>
                r.value[i] == ImportedArticle(payload.value.items[i], now).value
  {
    match payload
    case Unparsable(m) => Err(FaultResponse(SyntaxError(m)))
    case Parsed(v) =>
      if !v.Arr? then Err(TextResponse(400, "Expected an array of articles"))
      else
        match ImportedArticles(v.items, now)
        case Err(f) => Err(FaultResponse(f))
        case Ok(ins) =>
          Ok(ins)
  }

  /**
   * POST /import. `commit` is the store's answer to the batch, `now` the
   * clock the handler reads and `timestamp` the store's. A committed batch
   * appends one row per element, in array order, and answers 201 with their
   * number; anything else leaves the table as it was.
   */
  function ImportArticlesOutcome(rows: seq<Article>, nextId: nat, payload: Payload, commit: Commit,
                                 now: string, timestamp: string): (o: Outcome)
    ensures HasCors(o.response)
    ensures o.response.status == 201 <==> ArticlesToImport(payload, now).Ok? && commit.Committed?
    ensures o.response.status == 201 ==>
              var ins := ArticlesToImport(payload, now).value;
              o.rows == rows + RowsOf(ins, nextId, timestamp) &&
              o.nextId == nextId + |ins| &&
              o.response == JsonResponse(201, Imported("Articles imported successfully", |payload.value.items|))
    ensures o.response.status != 201 ==> o.rows == rows && o.nextId == nextId
    ensures ArticlesToImport(payload, now).Err? ==> o.response == ArticlesToImport(payload, now).error
    ensures ArticlesToImport(payload, now).Ok? && commit.NotCommitted? ==>
              o.response == TextResponse(500, "Failed to import articles")
    ensures ArticlesToImport(payload, now).Ok? && commit.Failed? ==>
              o.response == FaultResponse(StorageError(commit.message))
    ensures WellFormed(rows, nextId) && 0 < nextId ==> WellFormed(o.rows, o.nextId) && 0 < o.nextId
  {
    match ArticlesToImport(payload, now)
    case Err(r) => Outcome(rows, nextId, r)
    case Ok(ins) =>
      match commit
      case Committed =>
        AppendKeepsWellFormed(rows, nextId, ins, timestamp);
        Outcome(rows + RowsOf(ins, nextId, timestamp), nextId + |ins|,
                JsonResponse(201, Imported("Articles imported successfully", |ins|)))
      case NotCommitted => Outcome(rows, nextId, TextResponse(500, "Failed to import articles"))
      case Failed(m) => Outcome(rows, nextId, FaultResponse(StorageError(m)))
  }

  /**
   * The rows a successful POST /import adds: one per array element, in
   * order, with consecutive ids, each with its element's title, the slug of
   * that title and the defaults of `ImportedArticle`.
   */
  lemma ImportedRows(rows: seq<Article>, nextId: nat, payload: Payload, commit: Commit, now: string, timestamp: string)
    requires ImportArticlesOutcome(rows, nextId, payload, commit, now, timestamp).response.status == 201
    ensures var o := ImportArticlesOutcome(rows, nextId, payload, commit, now, timestamp);
      var items := payload.value.items;
      |o.rows| == |rows| + |items| && o.rows[..|rows|] == rows &&
      forall i :: 0 <= i < |items| ==>
        var row := o.rows[|rows| + i];
        var status := Prop(items[i], "status");
        row.id == nextId + i && row.title == Prop(items[i], "title").s &&
        row.slug == Slugify(row.title) &&
        row.status == (if Truthy(status) then status else Str("Draft"))
  {
    var o := ImportArticlesOutcome(rows, nextId, payload, commit, now, timestamp);
    var ins := ArticlesToImport(payload, now).value;
    var added := RowsOf(ins, nextId, timestamp);
    assert o.rows[..|rows|] == rows;
    forall i | 0 <= i < |payload.value.items|
      ensures o.rows[|rows| + i] == RowOf(ImportedArticle(payload.value.items[i], now).value, nextId + i, timestamp)
    {
      assert o.rows[|rows| + i] == added[i];
    }
  }

  /**
   * The import handler's answer as index.ts computes it from `batched`,
   * the value the batch call resolves to, by destructuring its `success` property.
   * The batch resolves to an array with one result object per statement,
   * so `success` is read from the array rather than from its elements.
   */
  function ImportAnswerAsWritten(batched: Value, count: nat): (r: Response)
    requires !Nullish(batched)
    ensures HasCors(r)
    ensures r.status == 201 <==> Truthy(Prop(batched, "success"))
  {
    if Truthy(Prop(batched, "success")) then
      JsonResponse(201, Imported("Articles imported successfully", count))
    else TextResponse(500, "Failed to import articles")
  }

  /**
   * An array has no `success` property, so even a batch whose every
   * statement succeeded, and whose rows are therefore in the table, is
   * answered as a failure.
   */
  lemma ImportAsWrittenReportsFailure(results: seq<Value>, count: nat)
    requires forall i :: 0 <= i < |results| ==> results[i] == Obj(map["success" := Bool(true)])
    ensures ImportAnswerAsWritten(Arr(results), count) == TextResponse(500, "Failed to import articles")
  {
  }

  /**
   * POST /import as index.ts writes it: the same as `ImportArticlesOutcome`
   * except that a committed batch is answered from `results`, the
   * per-statement results the batch resolves to, by `ImportAnswerAsWritten`.
   * The rows are in the table either way.
   */
  function ImportArticlesOutcomeAsWritten(rows: seq<Article>, nextId: nat, payload: Payload, commit: Commit,
                                          now: string, timestamp: string, results: seq<Value>): (o: Outcome)
    ensures HasCors(o.response)
    ensures o.response.status != 201
    ensures ArticlesToImport(payload, now).Ok? && commit.Committed? ==>
              var ins := ArticlesToImport(payload, now).value;
              o.rows == rows + RowsOf(ins, nextId, timestamp) &&
              o.nextId == nextId + |ins| &&
              o.response == TextResponse(500, "Failed to import articles")
    ensures !(ArticlesToImport(payload, now).Ok? && commit.Committed?) ==>
              o == ImportArticlesOutcome(rows, nextId, payload, commit, now, timestamp)
  {
    match ArticlesToImport(payload, now)
    case Err(r) => Outcome(rows, nextId, r)
    case Ok(ins) =>
      match commit
      case Committed =>
        Outcome(rows + RowsOf(ins, nextId, timestamp), nextId + |ins|,
                ImportAnswerAsWritten(Arr(results), |ins|))
      case NotCommitted => Outcome(rows, nextId, TextResponse(500, "Failed to import articles"))
      case Failed(m) => Outcome(rows, nextId, FaultResponse(StorageError(m)))
  }

  /**
   * The discrepancy: a valid array that the store commits leaves the same
   * rows in the table as intended, one per element, yet index.ts answers
   * 500 `Failed to import articles` where the intended answer is 201 with
   * the number of articles.
   */
  lemma ImportAsWrittenLosesCommittedBatch(rows: seq<Article>, nextId: nat, items: seq<Value>, now: string,
                                           timestamp: string, results: seq<Value>)
    requires ArticlesToImport(Parsed(Arr(items)), now).Ok?
    ensures var written := ImportArticlesOutcomeAsWritten(rows, nextId, Parsed(Arr(items)), Committed, now, timestamp, results);
      var intended := ImportArticlesOutcome(rows, nextId, Parsed(Arr(items)), Committed, now, timestamp);
      written.rows == intended.rows && written.nextId == intended.nextId &&
      |written.rows| == |rows| + |items| && written.rows[..|rows|] == rows &&
      written.response == TextResponse(500, "Failed to import articles") &&
      intended.response == JsonResponse(201, Imported("Articles imported successfully", |items|))
  {
    var ins := ArticlesToImport(Parsed(Arr(items)), now).value;
    assert (rows + RowsOf(ins, nextId, timestamp))[..|rows|] == rows;
  }

  /** Runs POST /import on the table. */
  method ImportArticles(db: Table, payload: Payload, commit: Commit, now: string, timestamp: string)
    returns (resp: Response)
    requires db.Valid()
    modifies db
    ensures db.Valid()
    ensures Outcome(db.rows, db.nextId, resp) ==
            ImportArticlesOutcome(old(db.rows), old(db.nextId), payload, commit, now, timestamp)
  {
    match ArticlesToImport(payload, now)
    case Err(r) =>
      resp := r;
    case Ok(ins) =>
      match commit
      case Committed =>
        db.InsertAll(ins, timestamp);
        resp := JsonResponse(201, Imported("Articles imported successfully", |ins|));
      case NotCommitted =>
        resp := TextResponse(500, "Failed to import articles");
      case Failed(m) =>
        resp := FaultResponse(StorageError(m));
  }
}
