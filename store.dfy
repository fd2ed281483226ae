/**
 * The document_chunks table as the services drive it: CrudRepository.save creates a record,
 * two UPDATE statements set its metadata and its pgvector embedding, and a nearest-neighbour
 * SELECT reads rows back. Which statements the database rejects and how pgvector ranks rows
 * are given, not modelled.
 */
module Store {
  import opened Wrappers
  import opened JavaText

  /** The metadata JSON the ingest writes: {source, chunkIndex}. */
  datatype Metadata = Metadata(source: string, chunkIndex: int)

  /** One row of document_chunks; metadata and embedding stay null until an UPDATE sets them. */
  datatype Record = Record(source: Option<string>, chunkIndex: int, content: string,
                           metadata: Option<Metadata>, embedding: Option<string>)

  /** The statements the services issue. */
  datatype Stmt =
    | Insert(source: Option<string>, chunkIndex: int, content: string)
    | SetMetadata(id: nat, metadata: Metadata)
    | SetEmbedding(id: nat, literal: string)
    | Nearest(literal: string, limit: nat)

  /** A row of the nearest-neighbour query: id, content, metadata. */
  datatype Row = Row(id: nat, content: Option<string>, metadata: Option<Metadata>)

  /** The table, the next identity value, and every statement issued so far, in order. */
  datatype Db = Db(table: map<nat, Record>, nextId: nat, log: seq<Stmt>)

  /** Identity values are handed out in increasing order, so every id in use is below nextId. */
  predicate Valid(db: Db) {
    forall id :: id in db.table ==> id < db.nextId
  }

  /** save(): the new record gets the next identity value; a rejected insert throws. */
  function SaveDb(db: Db, refused: set<Stmt>, source: Option<string>, index: int, content: string): (Result<nat>, Db)
  {
    var stmt := Insert(source, index, content);
    if stmt in refused then (Err(DataAccess), db.(log := db.log + [stmt]))
    else
      (Ok(db.nextId),
       Db(db.table[db.nextId := Record(source, index, content, None, None)], db.nextId + 1, db.log + [stmt]))
  }

  /** The record after an UPDATE statement sets a column. */
  function Applied(rec: Record, stmt: Stmt): Record {
    match stmt
    case SetMetadata(_, m) => rec.(metadata := Some(m))
    case SetEmbedding(_, lit) => rec.(embedding := Some(lit))
    case _ => rec
  }

  /** jdbc.update: the number of rows whose id matches; a rejected statement throws. */
  function UpdateDb(db: Db, refused: set<Stmt>, stmt: Stmt): (Result<nat>, Db)
    requires stmt.SetMetadata? || stmt.SetEmbedding?
  {
    var logged := db.(log := db.log + [stmt]);
    if stmt in refused then (Err(DataAccess), logged)
    else if stmt.id in db.table then (Ok(1), logged.(table := db.table[stmt.id := Applied(db.table[stmt.id], stmt)]))
    else (Ok(0), logged)
  }

  /** The first limit elements of the ranking. */
  function Take(rows: seq<Row>, limit: nat): (r: seq<Row>)
    ensures |r| == if |rows| <= limit then |rows| else limit
    ensures r == rows[..|r|]
  {
    if |rows| <= limit then rows else rows[..limit]
  }

  /** queryForList(ORDER BY embedding <-> literal LIMIT limit). */
  function QueryDb(db: Db, refused: set<Stmt>, ranking: (map<nat, Record>, string) -> seq<Row>,
                   literal: string, limit: nat): (Result<seq<Row>>, Db)
  {
    var stmt := Nearest(literal, limit);
    var logged := db.(log := db.log + [stmt]);
    if stmt in refused then (Err(DataAccess), logged)
    else (Ok(Take(ranking(db.table, literal), limit)), logged)
  }

  /** The pgvector text form of a vector: its rendered elements, comma-separated, in brackets. */
  function VectorLiteral(parts: seq<string>): (lit: string)
    ensures |lit| >= 2 && lit[0] == '[' && lit[|lit| - 1] == ']'
  {
    "[" + Join(parts, ",") + "]"
  }

  /** The elements can be read back from a literal when none of them holds a comma. */
  lemma VectorLiteralParts(parts: seq<string>)
    requires |parts| > 0
    requires forall i, k :: 0 <= i < |parts| && 0 <= k < |parts[i]| ==> parts[i][k] != ','
    ensures var lit := VectorLiteral(parts);
      SplitAt(lit[1..|lit| - 1], ',') == parts
  {
    var lit := VectorLiteral(parts);
    assert lit[1..|lit| - 1] == Join(parts, [',']);
    SplitJoinRoundTrip(parts, ',');
  }

  /** The database behind the repository and the JdbcTemplate. */
  class ChunkStore {
    var table: map<nat, Record>
    var nextId: nat
    var log: seq<Stmt>
    /** The statements the database rejects with a DataAccessException. */
    const refused: set<Stmt>
    /** pgvector's ordering of the table's rows by distance to a query vector. */
    const ranking: (map<nat, Record>, string) -> seq<Row>

    constructor (refused: set<Stmt>, ranking: (map<nat, Record>, string) -> seq<Row>)
      ensures table == map[] && nextId == 0 && log == []
      ensures this.refused == refused && this.ranking == ranking
    {
      table := map[];
      nextId := 0;
      log := [];
      this.refused := refused;
      this.ranking := ranking;
    }

    function State(): Db
      reads this
    {
      Db(table, nextId, log)
    }

    /** repo.save(record) for a record built from source, index and content. */
    method Save(source: Option<string>, index: int, content: string) returns (r: Result<nat>)
      modifies this
      ensures (r, State()) == SaveDb(old(State()), refused, source, index, content)
    {
      var stmt := Insert(source, index, content);
      log := log + [stmt];
      if stmt in refused {
        return Err(DataAccess);
      }
      r := Ok(nextId);
      table := table[nextId := Record(source, index, content, None, None)];
      nextId := nextId + 1;
    }

    /** jdbc.update for one of the two UPDATE statements. */
    method Update(stmt: Stmt) returns (r: Result<nat>)
      requires stmt.SetMetadata? || stmt.SetEmbedding?
      modifies this
      ensures (r, State()) == UpdateDb(old(State()), refused, stmt)
    {
      log := log + [stmt];
      if stmt in refused {
        return Err(DataAccess);
      }
      if stmt.id in table {
        table := table[stmt.id := Applied(table[stmt.id], stmt)];
        return Ok(1);
      }
      return Ok(0);
    }

    /** jdbc.queryForList for the nearest-neighbour SELECT. */
    method Query(literal: string, limit: nat) returns (r: Result<seq<Row>>)
      modifies this
      ensures (r, State()) == QueryDb(old(State()), refused, ranking, literal, limit)
    {
      var stmt := Nearest(literal, limit);
      log := log + [stmt];
      if stmt in refused {
        return Err(DataAccess);
      }
      r := Ok(Take(ranking(table, literal), limit));
    }
  }

  /** save() keeps identity values below nextId and never reuses one. */
  lemma SaveKeepsValid(db: Db, refused: set<Stmt>, source: Option<string>, index: int, content: string)
    requires Valid(db)
    ensures var (r, db') := SaveDb(db, refused, source, index, content);
      && Valid(db')
      && (r.Ok? ==> r.value !in db.table && db'.table[r.value] == Record(source, index, content, None, None))
      && (forall id :: id in db.table ==> id in db'.table && db'.table[id] == db.table[id])
  {
  }

  /** An UPDATE changes one column of the matching row only, and reports 1 exactly when that row exists. */
  lemma UpdateTouchesOneRow(db: Db, refused: set<Stmt>, stmt: Stmt)
    requires stmt.SetMetadata? || stmt.SetEmbedding?
    requires Valid(db)
    ensures var (r, db') := UpdateDb(db, refused, stmt);
      && Valid(db') && db'.nextId == db.nextId && db'.table.Keys == db.table.Keys
      && (forall id :: id in db.table && id != stmt.id ==> db'.table[id] == db.table[id])
      && (r.Ok? ==> (r.value == 1 <==> stmt.id in db.table))
      && (r.Ok? && stmt.id in db.table ==> db'.table[stmt.id] == Applied(db.table[stmt.id], stmt))
      && (r.Err? ==> db'.table == db.table)
  {
  }
}
