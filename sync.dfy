/**
 * The library's entry point `stages`: check the token, page through the
 * collection, fetch three fields per record and assemble the stages, failing
 * the whole call on the first error.
 */
module Sync {
  import opened Wrappers
  import opened Http
  import opened Database
  import opened Page

  /** The synchronised record. */
  datatype Stage = Stage(id: i32, title: string, tags: seq<string>)

  /** The JSON decoders of the four response shapes. */
  datatype Parsers = Parsers(
    query: string -> Option<QueryResponse>,
    number: string -> Option<Number>,
    title: string -> Option<Title>,
    multiSelect: string -> Option<MultiSelect>)

  /**
   * The remote side: whether the HTTP client can be built, the scripted
   * answers to the query requests of each collection, and the answer to a
   * field request for (field id, record id).
   */
  datatype Remote = Remote(
    clientBuilds: bool,
    queryScript: string -> seq<Exchange>,
    properties: (string, string) -> Exchange)

  /** The names of the selected options, in order. */
  function TagNames(selects: seq<Select>): (names: seq<string>)
    ensures |names| == |selects|
    ensures forall i :: 0 <= i < |selects| ==> names[i] == selects[i].name
  {
    if selects == [] then [] else [selects[0].name] + TagNames(selects[1..])
  }

  /**
   * The per-record `match`: a stage when all three fields were fetched,
   * otherwise the ID error, else the Name error, else the Tags error. The
   * source takes the first title segment with `unwrap`, so an empty title
   * list among three successes is excluded.
   */
  function AssembleStage(id: Result<Number, AppError>, name: Result<Title, AppError>, tags: Result<MultiSelect, AppError>): (r: Result<Stage, AppError>)
    requires id.Success? && name.Success? && tags.Success? ==> name.value.results != []
    ensures r.Success? <==> id.Success? && name.Success? && tags.Success?
    ensures r.Success? ==>
              && r.value.id == id.value.number
              && r.value.title == name.value.results[0].title.plain_text
              && |r.value.tags| == |tags.value.multi_select|
              && forall i :: 0 <= i < |r.value.tags| ==> r.value.tags[i] == tags.value.multi_select[i].name
    ensures id.Failure? ==> r == Failure(id.error)
    ensures id.Success? && name.Failure? ==> r == Failure(name.error)
    ensures id.Success? && name.Success? && tags.Failure? ==> r == Failure(tags.error)
  {
    match (id, name, tags)
    case (Success(n), Success(t), Success(m)) =>
      Success(Stage(n.number, t.results[0].title.plain_text, TagNames(m.multi_select)))
    case (Failure(e), _, _) => Failure(e)
    case (_, Failure(e), _) => Failure(e)
    case (_, _, Failure(e)) => Failure(e)
  }

  function NumberOf(remote: Remote, parsers: Parsers, record: string): Result<Number, AppError> {
    Property(remote.properties, "ID", record, parsers.number)
  }

  function TitleOf(remote: Remote, parsers: Parsers, record: string): Result<Title, AppError> {
    Property(remote.properties, "Name", record, parsers.title)
  }

  function TagsOf(remote: Remote, parsers: Parsers, record: string): Result<MultiSelect, AppError> {
    Property(remote.properties, "Tags", record, parsers.multiSelect)
  }

  /** The record does not reach the source's `unwrap` of an empty title list. */
  predicate TitlePresent(remote: Remote, parsers: Parsers, record: string) {
    var (n, t, m) := (NumberOf(remote, parsers, record), TitleOf(remote, parsers, record), TagsOf(remote, parsers, record));
    n.Success? && t.Success? && m.Success? ==> t.value.results != []
  }

  /** The outcome of one record's three field fetches. */
  function RecordOutcome(remote: Remote, parsers: Parsers, record: string): (r: Result<Stage, AppError>)
    requires TitlePresent(remote, parsers, record)
    ensures var (n, t, m) := (NumberOf(remote, parsers, record), TitleOf(remote, parsers, record), TagsOf(remote, parsers, record));
            && (r.Success? <==> n.Success? && t.Success? && m.Success?)
            && (r.Success? ==> r.value == Stage(n.value.number, t.value.results[0].title.plain_text, TagNames(m.value.multi_select)))
            && (n.Failure? ==> r == Failure(n.error))
            && (n.Success? && t.Failure? ==> r == Failure(t.error))
            && (n.Success? && t.Success? && m.Failure? ==> r == Failure(m.error))
  {
    AssembleStage(NumberOf(remote, parsers, record), TitleOf(remote, parsers, record), TagsOf(remote, parsers, record))
  }

  /**
   * `try_join_all`, sequentially: every value in order when all succeed,
   * otherwise the error of some failed element.
   */
  function JoinAll<T>(rs: seq<Result<T, AppError>>): (r: Result<seq<T>, AppError>)
    ensures r.Success? <==> forall i :: 0 <= i < |rs| ==> rs[i].Success?
    ensures r.Success? ==> |r.value| == |rs|
    ensures r.Success? ==> forall i :: 0 <= i < |rs| ==> rs[i] == Success(r.value[i])
    ensures r.Failure? ==> exists i :: 0 <= i < |rs| && rs[i] == Failure(r.error)
  {
    if rs == [] then Success([])
    else match rs[0]
      case Failure(e) => Failure(e)
      case Success(v) =>
        match JoinAll(rs[1..])
        case Failure(e) => Failure(e)
        case Success(vs) => Success([v] + vs)
  }

  /** The records the pager found all avoid the empty-title `unwrap`. */
  predicate TitlesPresent(remote: Remote, parsers: Parsers, entries: seq<PropertyResult>) {
    forall i :: 0 <= i < |entries| ==> TitlePresent(remote, parsers, entries[i].id)
  }

  /** The fan-out over the pager's entries, joined fail-fast. */
  function SyncRecords(remote: Remote, parsers: Parsers, entries: seq<PropertyResult>): (r: Result<seq<Stage>, AppError>)
    requires TitlesPresent(remote, parsers, entries)
    ensures r.Success? <==> forall i :: 0 <= i < |entries| ==> RecordOutcome(remote, parsers, entries[i].id).Success?
    ensures r.Success? ==> |r.value| == |entries|
    ensures r.Success? ==> forall i :: 0 <= i < |entries| ==> RecordOutcome(remote, parsers, entries[i].id) == Success(r.value[i])
    ensures r.Failure? ==> exists i :: 0 <= i < |entries| && RecordOutcome(remote, parsers, entries[i].id) == Failure(r.error)
  {
    var outcomes := seq(|entries|, i requires 0 <= i < |entries| => RecordOutcome(remote, parsers, entries[i].id));
    assert forall i :: 0 <= i < |entries| ==> outcomes[i] == RecordOutcome(remote, parsers, entries[i].id);
    JoinAll(outcomes)
  }

  /**
   * What the remote must do for the model to be defined: the query script
   * of `dbId` stops, and no record the pager returns has an empty title.
   */
  predicate WellBehaved(remote: Remote, parsers: Parsers, dbId: string) {
    && EventuallyStops(remote.queryScript(dbId), parsers.query, 0)
    && var q := Paginate(remote.queryScript(dbId), parsers.query);
       q.Success? ==> TitlesPresent(remote, parsers, q.value)
  }

  /**
   * What `stages` returns. `validHeaderValue` is the HTTP library's check of
   * a header value, applied to the `Authorization` header.
   */
  function Synchronize(token: string, dbId: string, remote: Remote, parsers: Parsers, validHeaderValue: string -> bool): Result<seq<Stage>, AppError>
    requires validHeaderValue("Bearer " + token) && remote.clientBuilds ==> WellBehaved(remote, parsers, dbId)
  {
    if !validHeaderValue("Bearer " + token) then Failure(WrongToken)
    else if !remote.clientBuilds then Failure(HttpError)
    else match Paginate(remote.queryScript(dbId), parsers.query)
      case Failure(e) => Failure(e)
      case Success(entries) => SyncRecords(remote, parsers, entries)
  }

  /** The query bodies `stages` sends: none when it fails before paging. */
  function SyncBodies(token: string, dbId: string, remote: Remote, parsers: Parsers, validHeaderValue: string -> bool): seq<Body>
    requires validHeaderValue("Bearer " + token) && remote.clientBuilds ==> WellBehaved(remote, parsers, dbId)
  {
    if !validHeaderValue("Bearer " + token) || !remote.clientBuilds then []
    else RequestBodies(remote.queryScript(dbId), parsers.query)
  }

  /** `stages`: returns the result and the query bodies sent. */
  method Stages(token: string, dbId: string, remote: Remote, parsers: Parsers, validHeaderValue: string -> bool)
    returns (r: Result<seq<Stage>, AppError>, bodies: seq<Body>)
    requires validHeaderValue("Bearer " + token) && remote.clientBuilds ==> WellBehaved(remote, parsers, dbId)
    ensures r == Synchronize(token, dbId, remote, parsers, validHeaderValue)
    ensures bodies == SyncBodies(token, dbId, remote, parsers, validHeaderValue)
  {
    if !validHeaderValue("Bearer " + token) {
      return Failure(WrongToken), [];
    }
    if !remote.clientBuilds {
      return Failure(HttpError), [];
    }
    var results;
    results, bodies := Query(remote.queryScript(dbId), parsers.query);
    if results.Failure? {
      return Failure(results.error), bodies;
    }
    r := SyncRecords(remote, parsers, results.value);
  }

  /** A token that is not a valid header value fails with `WrongToken` before any query is sent. */
  lemma TokenCheckedFirst(token: string, dbId: string, remote: Remote, parsers: Parsers, validHeaderValue: string -> bool)
    requires !validHeaderValue("Bearer " + token)
    ensures Synchronize(token, dbId, remote, parsers, validHeaderValue) == Failure(WrongToken)
    ensures SyncBodies(token, dbId, remote, parsers, validHeaderValue) == []
  {
  }

  /** A valid token with an HTTP client that cannot be built fails with `HttpError` before any query is sent. */
  lemma ClientCheckedBeforeQuery(token: string, dbId: string, remote: Remote, parsers: Parsers, validHeaderValue: string -> bool)
    requires validHeaderValue("Bearer " + token) && !remote.clientBuilds
    ensures Synchronize(token, dbId, remote, parsers, validHeaderValue) == Failure(HttpError)
    ensures SyncBodies(token, dbId, remote, parsers, validHeaderValue) == []
  {
  }

  /**
   * Order and fail-fast: a successful synchronisation has one stage per
   * entry the pager returned, assembled from that entry's fields, in the
   * pager's order; a record whose fields fail makes the whole call fail.
   */
  lemma StagesFollowEntries(token: string, dbId: string, remote: Remote, parsers: Parsers, validHeaderValue: string -> bool)
    requires WellBehaved(remote, parsers, dbId)
    requires validHeaderValue("Bearer " + token) && remote.clientBuilds
    requires Paginate(remote.queryScript(dbId), parsers.query).Success?
    ensures var entries := Paginate(remote.queryScript(dbId), parsers.query).value;
            var r := Synchronize(token, dbId, remote, parsers, validHeaderValue);
            && (r.Success? <==> forall i :: 0 <= i < |entries| ==> RecordOutcome(remote, parsers, entries[i].id).Success?)
            && (r.Success? ==> |r.value| == |entries|)
            && (r.Success? ==> forall i :: 0 <= i < |entries| ==> Success(r.value[i]) == RecordOutcome(remote, parsers, entries[i].id))
  {
  }

  const QueryJson := "{\"results\":[{\"id\":\"rec1\"}],\"has_more\":false,\"next_cursor\":null}"
  const NumberJson := "{\"number\":7}"
  const TitleJson := "{\"results\":[{\"title\":{\"plain_text\":\"Rallye\"}}]}"
  const TagsJson := "{\"multi_select\":[{\"name\":\"gravel\"},{\"name\":\"night\"}]}"

  /** A collection `db1` of one page holding the record `rec1`; its tags request is refused with 401 when `tagsRefused`. */
  function ExampleRemote(tagsRefused: bool): Remote {
    Remote(
      true,
      db => if db == "db1" then [Success(HttpResponse(200, Some(QueryJson)))] else [],
      (field, record) =>
        if record != "rec1" then Success(HttpResponse(404, Some("")))
        else if field == "ID" then Success(HttpResponse(200, Some(NumberJson)))
        else if field == "Name" then Success(HttpResponse(200, Some(TitleJson)))
        else if tagsRefused then Success(HttpResponse(401, Some("unauthorized")))
        else Success(HttpResponse(200, Some(TagsJson))))
  }

  /** Decoders that understand exactly the example's bodies. */
  function ExampleParsers(): Parsers {
    Parsers(
      t => if t == QueryJson then Some(QueryResponse([PropertyResult("rec1")], false, None)) else None,
      t => if t == NumberJson then Some(Number(7)) else None,
      t => if t == TitleJson then Some(Title([TitleResult(Text("Rallye"))])) else None,
      t => if t == TagsJson then Some(MultiSelect([Select("gravel"), Select("night")])) else None)
  }

  lemma ExamplePaging(tagsRefused: bool)
    ensures EventuallyStops(ExampleRemote(tagsRefused).queryScript("db1"), ExampleParsers().query, 0)
    ensures Paginate(ExampleRemote(tagsRefused).queryScript("db1"), ExampleParsers().query) == Success([PropertyResult("rec1")])
    ensures RequestBodies(ExampleRemote(tagsRefused).queryScript("db1"), ExampleParsers().query) == [map[]]
  {
    var script, parse := ExampleRemote(tagsRefused).queryScript("db1"), ExampleParsers().query;
    assert script == [Success(HttpResponse(200, Some(QueryJson)))];
    SinglePage(script, parse, QueryResponse([PropertyResult("rec1")], false, None));
  }

  lemma ExampleRecord(tagsRefused: bool)
    ensures TitlePresent(ExampleRemote(tagsRefused), ExampleParsers(), "rec1")
    ensures RecordOutcome(ExampleRemote(tagsRefused), ExampleParsers(), "rec1") ==
            if tagsRefused then Failure(WrongResponseCode(401, "unauthorized"))
            else Success(Stage(7, "Rallye", ["gravel", "night"]))
  {
    var remote, parsers := ExampleRemote(tagsRefused), ExampleParsers();
    assert NumberOf(remote, parsers, "rec1") == Success(Number(7));
    assert TitleOf(remote, parsers, "rec1") == Success(Title([TitleResult(Text("Rallye"))]));
    assert "Tags" != "ID" && "Tags" != "Name";
    if tagsRefused {
      assert TagsOf(remote, parsers, "rec1") == Failure(WrongResponseCode(401, "unauthorized"));
    } else {
      assert TagsOf(remote, parsers, "rec1") == Success(MultiSelect([Select("gravel"), Select("night")]));
      assert TagNames([Select("gravel"), Select("night")]) == ["gravel", "night"];
    }
  }

  /** One page, one record, three good fields: one stage, after one query with an empty body. */
  lemma ExampleSync(validHeaderValue: string -> bool)
    requires validHeaderValue("Bearer tok")
    ensures WellBehaved(ExampleRemote(false), ExampleParsers(), "db1")
    ensures Synchronize("tok", "db1", ExampleRemote(false), ExampleParsers(), validHeaderValue)
            == Success([Stage(7, "Rallye", ["gravel", "night"])])
    ensures SyncBodies("tok", "db1", ExampleRemote(false), ExampleParsers(), validHeaderValue) == [map[]]
  {
    var remote, parsers := ExampleRemote(false), ExampleParsers();
    ExamplePaging(false);
    ExampleRecord(false);
    assert "Bearer " + "tok" == "Bearer tok";
    var entries := [PropertyResult("rec1")];
    assert entries[0].id == "rec1";
    var r := SyncRecords(remote, parsers, entries);
    assert r.Success? && |r.value| == 1;
    assert r.value == [Stage(7, "Rallye", ["gravel", "night"])];
  }

  /** The same collection with its tags request refused: the server's status and body, and no stages. */
  lemma ExampleSyncRefused(validHeaderValue: string -> bool)
    requires validHeaderValue("Bearer tok")
    ensures WellBehaved(ExampleRemote(true), ExampleParsers(), "db1")
    ensures Synchronize("tok", "db1", ExampleRemote(true), ExampleParsers(), validHeaderValue)
            == Failure(WrongResponseCode(401, "unauthorized"))
  {
    var remote, parsers := ExampleRemote(true), ExampleParsers();
    ExamplePaging(true);
    ExampleRecord(true);
    assert "Bearer " + "tok" == "Bearer tok";
    var entries := [PropertyResult("rec1")];
    assert entries[0].id == "rec1";
    var r := SyncRecords(remote, parsers, entries);
    assert r.Failure?;
  }
}
