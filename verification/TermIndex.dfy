/** The term lane's inverted index: its tables, the triggers that watch `capsules`,
    and one function per write transaction. */
module TermIndex {
  import opened Words
  import opened Tables

  /** `tokens(t, json)`: the words tokenizer `t` makes of the content of a capsule's JSON. */
  datatype Lexer = Lexer(tokens: (string, string) -> seq<Word>)

  function Frequency(lex: Lexer, t: string, text: string, w: Word): nat {
    multiset(lex.tokens(t, text))[w]
  }

  /** The stored `valid`: 0, 1 and 2. */
  datatype Phase = Invalid | Complete | Building

  datatype State = State(
    covered: int, phase: Phase, cursor: Option<Key>, tokenizer: string, documents: int, tokens: int)

  /** `capsules`: the JSON by seq, NULL once the capsule is forgotten. */
  type Capsules = map<int, Option<string>>

  /** `intact`: every table and trigger of the index is stored as this build creates it. `floor` is history, stored
      nowhere: the index leaves out every capsule at or below it, since the reset that began it. */
  datatype Db = Db(
    capsules: Capsules, intact: bool, postings: map<Key, nat>, documents: map<int, nat>, state: State, floor: int)

  const TERM_INDEX_SLICE: nat := 200_000
  const TERM_INDEX_CHUNK_SIZE: nat := 500
  /** Where a build starts: below every key it will write. */
  const ORIGIN := Key("", 0)

  predicate Live(c: Capsules, s: int) {
    s in c && c[s].Some?
  }

  function Newest(db: Db): int {
    MaxOrZero(db.capsules.Keys)
  }

  /** `COALESCE(MAX(s), 0) + 1` over the capsules and the handles is newer than every capsule. */
  predicate Newer(db: Db, s: int) {
    forall x | x in db.capsules.Keys :: x < s
  }

  /** `create_store`: the empty index of an empty store is complete. */
  function FreshStore(t: string): Db {
    Db(map[], true, map[], map[], State(0, Complete, None, t, 0, 0), 0)
  }

  /** `term_index`: the totals of an index that recall may trust, else None. */
  function ReadTermIndex(db: Db, t: string): Option<(int, int)> {
    if !db.intact || db.state.phase != Complete || db.state.tokenizer != t || db.state.covered < Newest(db)
    then None
    else Some((db.state.documents, db.state.tokens))
  }

  /** An index of capsules below 0, all gone: it covers less than `coalesce(max(seq), 0)`, which is 0. */
  predicate Emptied(db: Db) {
    db.capsules == map[] && db.state.covered < 0
  }

  function Invalidate(db: Db): Db {
    db.(state := db.state.(phase := Invalid))
  }

  /** A build asks for rows above `coalesce(max(seq), 0)` of its documents, none of which is above `covered`. */
  function FloorOf(covered: int): int {
    if covered < 0 then covered else 0
  }

  /** `_reset_term_index`: every object of the index, empty. */
  function Reset(db: Db, covered: int, phase: Phase, t: string): Db {
    db.(intact := true, postings := map[], documents := map[],
        state := State(covered, phase, if phase == Building then Some(ORIGIN) else None, t, 0, 0),
        floor := FloorOf(covered))
  }

  /** `_add_term_index_objects`. */
  function AddObjects(db: Db, t: string): Db {
    if db.intact then db else Reset(db, 0, Invalid, t)
  }

  // ---- the triggers on `capsules`, for a statement of any writer -------------

  function RawInsert(db: Db, s: int, json: Option<string>): Db {
    var after := db.(capsules := db.capsules[s := json]);
    if db.intact && json.Some? && s <= db.state.covered then Invalidate(after) else after
  }

  function RawUpdate(db: Db, s: int, moved: int, json: Option<string>): Db
    requires s in db.capsules
  {
    var after := db.(capsules := (db.capsules - {s})[moved := json]);
    if db.intact && (moved != s || json != db.capsules[s]) && (json.Some? || s in db.documents)
    then Invalidate(after)
    else after
  }

  function RawDelete(db: Db, s: int): Db {
    var after := db.(capsules := db.capsules - {s});
    if db.intact && s in db.documents then Invalidate(after) else after
  }

  // ---- the writers that keep the index ---------------------------------------

  function DocumentPostings(lex: Lexer, t: string, s: int, text: string): map<Key, nat> {
    map w | w in lex.tokens(t, text) :: Key(w, s) := Frequency(lex, t, text, w)
  }

  /** `index_term_documents` for one capsule: its postings, its length, the totals. */
  function IndexDocument(lex: Lexer, t: string, db: Db, s: int, text: string): Db {
    var length := |lex.tokens(t, text)|;
    db.(postings := db.postings + DocumentPostings(lex, t, s, text),
        documents := db.documents[s := length],
        state := db.state.(documents := db.state.documents + 1, tokens := db.state.tokens + length))
  }

  /** `CapsuleRepository.insert`: indexes the new capsule only when the index covers every older one. */
  function Insert(lex: Lexer, t: string, db: Db, s: int, text: string): Db {
    var after := RawInsert(db, s, Some(text));
    if ReadTermIndex(db, t).None? then after
    else
      var indexed := IndexDocument(lex, t, after, s, text);
      indexed.(state := indexed.state.(covered := s))
  }

  /** `unindex_term_document`, before the text goes. */
  function Unindex(lex: Lexer, t: string, db: Db, s: int): Db
    requires Live(db.capsules, s)
  {
    if !db.intact || db.state.phase == Invalid then db
    else if db.state.tokenizer != t then Invalidate(db)
    else if s !in db.documents then db
    else
      db.(postings := db.postings - DocumentPostings(lex, t, s, db.capsules[s].value).Keys,
          documents := db.documents - {s},
          state := db.state.(documents := db.state.documents - 1,
                             tokens := db.state.tokens - db.documents[s]))
  }

  /** `forget_capsule`: unindex, then null the text, in one transaction. */
  function Forget(lex: Lexer, t: string, db: Db, s: int): Db
    requires Live(db.capsules, s)
  {
    RawUpdate(Unindex(lex, t, db, s), s, s, None)
  }

  // ---- the build's transactions ----------------------------------------------

  datatype DocRow = DocRow(doc: int, length: nat)
  datatype Posting = Posting(key: Key, tf: nat)

  /** `_building`: the build still owns the state. */
  predicate Owns(db: Db, t: string, cursor: Key) {
    db.intact && db.state.phase == Building && db.state.tokenizer == t && db.state.cursor == Some(cursor)
  }

  /** Rows numbered above `done`, in order. */
  function After(rows: seq<DocRow>, done: int): seq<DocRow> {
    if rows == [] then []
    else if rows[0].doc > done then [rows[0]] + After(rows[1..], done)
    else After(rows[1..], done)
  }

  function Batch<T>(rows: seq<T>): seq<T> {
    if |rows| <= TERM_INDEX_SLICE then rows else rows[..TERM_INDEX_SLICE]
  }

  function LiveRows(rows: seq<DocRow>, c: Capsules): seq<DocRow> {
    if rows == [] then []
    else if Live(c, rows[0].doc) then [rows[0]] + LiveRows(rows[1..], c)
    else LiveRows(rows[1..], c)
  }

  /** `_add_term_documents`. */
  function AddDocuments(db: Db, rows: seq<DocRow>): Db
    decreases |rows|
  {
    if rows == [] then db
    else
      AddDocuments(
        db.(documents := db.documents[rows[0].doc := rows[0].length],
            state := db.state.(documents := db.state.documents + 1,
                               tokens := db.state.tokens + rows[0].length)),
        rows[1..])
  }

  /** The postings of indexed documents, inserted in order. */
  function AddPostings(db: Db, rows: seq<Posting>): Db
    decreases |rows|
  {
    if rows == [] then db
    else if rows[0].key.doc in db.documents then
      AddPostings(db.(postings := db.postings[rows[0].key := rows[0].tf]), rows[1..])
    else AddPostings(db, rows[1..])
  }

  /** The next document batch: the unfilled rows above the highest document. */
  function NextBatch(db: Db, lengths: seq<DocRow>): seq<DocRow> {
    Batch(After(lengths, MaxOrZero(db.documents.Keys)))
  }

  /** One posting transaction: a slice and the cursor after it, or the end of the build. */
  function PostSlice(db: Db, batch: seq<Posting>): Db {
    if batch == [] then db.(state := db.state.(phase := Complete, cursor := None))
    else
      var after := AddPostings(db, batch);
      after.(state := after.state.(cursor := Some(batch[|batch| - 1].key)))
  }

  // ---- the catch-up ----------------------------------------------------------

  function CatchUpRows(db: Db): seq<int> {
    var above := Ascending(set s | s in db.capsules.Keys && s > db.state.covered);
    if |above| <= TERM_INDEX_CHUNK_SIZE then above else above[..TERM_INDEX_CHUNK_SIZE]
  }

  function IndexAll(lex: Lexer, t: string, db: Db, docs: seq<int>): (r: Db)
    ensures r.capsules == db.capsules && r.intact == db.intact && r.floor == db.floor
    ensures r.state == db.state.(documents := r.state.documents, tokens := r.state.tokens)
    decreases |docs|
  {
    if docs == [] then db
    else if Live(db.capsules, docs[0]) then
      IndexAll(lex, t, IndexDocument(lex, t, db, docs[0], db.capsules[docs[0]].value), docs[1..])
    else IndexAll(lex, t, db, docs[1..])
  }

  /** One catch-up transaction of `_add_term_index`. */
  function CatchUp(lex: Lexer, t: string, db: Db): Db {
    var rows := CatchUpRows(db);
    if !db.intact || db.state.phase != Complete || db.state.tokenizer != t || rows == [] then db
    else
      var indexed := IndexAll(lex, t, db, rows);
      indexed.(state := indexed.state.(covered := rows[|rows| - 1]))
  }
}
