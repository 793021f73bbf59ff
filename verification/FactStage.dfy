// Fact staging: upserts are collected in a map and written to the database
// in chunks, by one flusher, while agents keep staging.
module FactStage {
  import opened Agents

  datatype FactKey = FactKey(agent: AgentId, moduleName: string)

  // key: the row's primary key; at: when it was collected.
  datatype Row = Row(key: FactKey, data: string, at: int)

  // What a module reported: a table, which can be staged, or anything else.
  datatype Payload = Table(data: string) | Other

  type Facts = map<FactKey, Row>

  const WRITE_CHUNK := 5000
  const DEFAULT_STAGE_CAP := 20000
  const DEFAULT_FLUSH_SIZE := 5000

  // --------------------------------------------------------------------
  // The specification: upserting rows one by one
  // --------------------------------------------------------------------

  function Upserts(m: Facts, rows: seq<Row>): Facts
    decreases |rows|
  {
    if rows == [] then m else Upserts(m, rows[..|rows| - 1])[rows[|rows| - 1].key := rows[|rows| - 1]]
  }

  ghost predicate DistinctKeys(rows: seq<Row>) {
    forall i, j | 0 <= i < j < |rows| :: rows[i].key != rows[j].key
  }

  // Every row is filed under its own key.
  ghost predicate Filed(m: Facts) {
    forall k <- m :: m[k].key == k
  }

  // rows holds every row of m exactly once, in some order.
  ghost predicate Lists(rows: seq<Row>, m: Facts) {
    && DistinctKeys(rows)
    && (forall r <- rows :: r.key in m && m[r.key] == r)
    && (forall k <- m :: m[k] in rows)
  }

  lemma {:induction false} UpsertsConcat(m: Facts, a: seq<Row>, b: seq<Row>)
    ensures Upserts(m, a + b) == Upserts(Upserts(m, a), b)
    decreases |b|
  {
    if b == [] {
      assert a + b == a;
    } else {
      assert (a + b)[..|a + b| - 1] == a + b[..|b| - 1];
      UpsertsConcat(m, a, b[..|b| - 1]);
    }
  }

  lemma {:induction false} UpsertsUnder(m: Facts, n: Facts, rows: seq<Row>)
    ensures Upserts(m + n, rows) == m + Upserts(n, rows)
    decreases |rows|
  {
    if rows != [] { UpsertsUnder(m, n, rows[..|rows| - 1]); }
  }

  lemma {:induction false} UpsertsAt(m: Facts, rows: seq<Row>)
    requires DistinctKeys(rows)
    ensures forall r <- rows :: r.key in Upserts(m, rows) && Upserts(m, rows)[r.key] == r
    ensures forall k | (forall r <- rows :: r.key != k) :: k in Upserts(m, rows) <==> k in m
    ensures forall k <- m | (forall r <- rows :: r.key != k) :: Upserts(m, rows)[k] == m[k]
    decreases |rows|
  {
    if rows != [] {
      var init, last := rows[..|rows| - 1], rows[|rows| - 1];
      assert rows == init + [last];
      UpsertsAt(m, init);
    }
  }

  // Writing a listing of n is overlaying n.
  lemma ListingOverlays(m: Facts, n: Facts, rows: seq<Row>)
    requires Lists(rows, n) && Filed(n)
    ensures Upserts(m, rows) == m + n
  {
    UpsertsAt(m, rows);
    forall k ensures (k in Upserts(m, rows) <==> k in m + n) && (k in m + n ==> Upserts(m, rows)[k] == (m + n)[k]) {
      if k in n { assert n[k] in rows && n[k].key == k; }
    }
  }

  // --------------------------------------------------------------------
  // Admission
  // --------------------------------------------------------------------

  predicate Full(m: Facts, key: FactKey, cap: nat) {
    key !in m && |m| >= cap
  }

  // The rows that enter the stage when they are offered in turn.
  function Accepted(stage: Facts, rows: seq<Row>, cap: nat): seq<Row>
    decreases |rows|
  {
    if rows == [] then []
    else
      var before := Accepted(stage, rows[..|rows| - 1], cap);
      if Full(Upserts(stage, before), rows[|rows| - 1].key, cap) then before else before + [rows[|rows| - 1]]
  }

  function Staged(stage: Facts, rows: seq<Row>, cap: nat): Facts {
    Upserts(stage, Accepted(stage, rows, cap))
  }

  lemma StagedSnoc(stage: Facts, rows: seq<Row>, r: Row, cap: nat)
    ensures Staged(stage, rows + [r], cap) == if Full(Staged(stage, rows, cap), r.key, cap) then Staged(stage, rows, cap) else Staged(stage, rows, cap)[r.key := r]
    ensures Accepted(stage, rows + [r], cap) == Accepted(stage, rows, cap) + if Full(Staged(stage, rows, cap), r.key, cap) then [] else [r]
  {}

  // The stage never outgrows its cap and keeps every key it had.
  lemma {:induction false} StageStaysWithinCap(stage: Facts, rows: seq<Row>, cap: nat)
    requires Filed(stage) && |stage| <= cap
    ensures Filed(Staged(stage, rows, cap)) && |Staged(stage, rows, cap)| <= cap
    ensures stage.Keys <= Staged(stage, rows, cap).Keys
    decreases |rows|
  {
    hide Staged, Accepted, Upserts;
    StagedNothing(stage, cap);
    if rows != [] {
      var init, last := rows[..|rows| - 1], rows[|rows| - 1];
      assert rows == init + [last];
      StageStaysWithinCap(stage, init, cap);
      StagedSnoc(stage, init, last, cap);
      GrowByOne(Staged(stage, init, cap), last);
    }
  }

  // Rows of keys it had are always let in, and a row's key can end up absent
  // only when the row was refused and the stage is full.
  lemma {:induction false} AdmissionIsFair(stage: Facts, rows: seq<Row>, cap: nat)
    requires Filed(stage) && |stage| <= cap
    ensures forall r <- rows :: r.key !in Staged(stage, rows, cap) ==> r !in Accepted(stage, rows, cap) && |Staged(stage, rows, cap)| == cap
    ensures forall r <- rows :: r.key in stage ==> r in Accepted(stage, rows, cap)
    ensures forall r <- Accepted(stage, rows, cap) :: r in rows && r.key in Staged(stage, rows, cap)
    decreases |rows|
  {
    hide Staged, Accepted, Upserts, Filed;
    StagedNothing(stage, cap);
    if rows != [] {
      var init, last := rows[..|rows| - 1], rows[|rows| - 1];
      assert rows == init + [last];
      AdmissionIsFair(stage, init, cap);
      StageStaysWithinCap(stage, init, cap);
      StageStaysWithinCap(stage, rows, cap);
      StagedSnoc(stage, init, last, cap);
      GrowByOne(Staged(stage, init, cap), last);
    }
  }

  lemma GrowByOne(m: Facts, r: Row)
    ensures m[r.key := r].Keys == m.Keys + {r.key}
    ensures |m[r.key := r]| == |m| + if r.key in m then 0 else 1
  {}

  // With one row per key, as one response offers them, the refused rows are
  // exactly those whose keys are not staged afterwards.
  lemma {:induction false} RefusedIff(stage: Facts, rows: seq<Row>, cap: nat)
    requires Filed(stage) && |stage| <= cap && DistinctKeys(rows)
    ensures forall r <- rows :: r in Accepted(stage, rows, cap) <==> r.key in Staged(stage, rows, cap)
    decreases |rows|
  {
    if rows != [] {
      var init, last := rows[..|rows| - 1], rows[|rows| - 1];
      assert rows == init + [last];
      RefusedIff(stage, init, cap);
      StagedSnoc(stage, init, last, cap);
      AdmissionIsFair(stage, init, cap);
    }
  }

  // --------------------------------------------------------------------
  // The server's part
  // --------------------------------------------------------------------

  class FactBatcher {
    var stage: Facts
    var db: Facts
    const cfgStageCap: int
    const cfgFlushSize: int

    constructor (stageCap: int, flushSize: int, db: Facts)
      ensures stage == map[] && this.db == db && cfgStageCap == stageCap && cfgFlushSize == flushSize
    {
      stage, this.db, cfgStageCap, cfgFlushSize := map[], db, stageCap, flushSize;
    }

    function StageCap(): (cap: nat)
      ensures cap > 0 && (cfgStageCap > 0 ==> cap == cfgStageCap)
    {
      if cfgStageCap <= 0 then DEFAULT_STAGE_CAP else cfgStageCap
    }

    function FlushSize(): (size: nat)
      ensures size > 0 && (cfgFlushSize > 0 ==> size == cfgFlushSize)
    {
      if cfgFlushSize <= 0 then DEFAULT_FLUSH_SIZE else cfgFlushSize
    }

    // One row for each table of a response; what is not a table is skipped.
    method Prepare(agent: AgentId, data: map<string, Payload>, now: int) returns (prepared: seq<Row>)
      ensures DistinctKeys(prepared)
      ensures forall r <- prepared :: r.key.agent == agent && r.key.moduleName in data && data[r.key.moduleName] == Table(r.data) && r.at == now
      ensures forall m <- data | data[m].Table? :: Row(FactKey(agent, m), data[m].data, now) in prepared
    {
      prepared := [];
      var todo := data.Keys;
      while todo != {}
        invariant todo <= data.Keys && DistinctKeys(prepared)
        invariant forall r <- prepared :: r.key.agent == agent && r.key.moduleName in data.Keys - todo && data[r.key.moduleName] == Table(r.data) && r.at == now
        invariant forall m <- data.Keys - todo | data[m].Table? :: Row(FactKey(agent, m), data[m].data, now) in prepared
        decreases |todo|
      {
        var m :| m in todo;
        todo := todo - {m};
        if data[m].Table? {
          prepared := prepared + [Row(FactKey(agent, m), data[m].data, now)];
        }
      }
    }

    method Commit(prepared: seq<Row>) returns (dropped: nat, shouldSignal: bool)
      modifies this`stage
      ensures stage == Staged(old(stage), prepared, StageCap())
      ensures dropped == |prepared| - |Accepted(old(stage), prepared, StageCap())|
      ensures shouldSignal == (|stage| >= FlushSize())
    {
      hide Staged, Accepted, Upserts;
      dropped := 0;
      StagedNothing(stage, StageCap());
      for i := 0 to |prepared|
        invariant stage == Staged(old(stage), prepared[..i], StageCap())
        invariant dropped == i - |Accepted(old(stage), prepared[..i], StageCap())|
      {
        var e := prepared[i];
        assert prepared[..i + 1] == prepared[..i] + [e];
        StagedSnoc(old(stage), prepared[..i], e, StageCap());
        if e.key !in stage && |stage| >= StageCap() {
          dropped := dropped + 1;
          continue;
        }
        stage := stage[e.key := e];
      }
      assert prepared[..|prepared|] == prepared;
      shouldSignal := |stage| >= FlushSize();
    }

    method StageFacts(agent: AgentId, data: map<string, Payload>, now: int) returns (dropped: nat, shouldSignal: bool)
      requires Filed(stage) && |stage| <= StageCap()
      modifies this`stage
      ensures Filed(stage) && |stage| <= StageCap() && old(stage).Keys <= stage.Keys
      ensures forall m <- data | data[m].Table? ::
                var key := FactKey(agent, m);
                if key in stage then stage[key] == Row(key, data[m].data, now) else |stage| == StageCap()
      ensures forall k <- stage | !(k.agent == agent && k.moduleName in data && data[k.moduleName].Table?) :: k in old(stage) && stage[k] == old(stage)[k]
      ensures shouldSignal == (|stage| >= FlushSize())
    {
      var prepared := Prepare(agent, data, now);
      dropped, shouldSignal := Commit(prepared);
      StageStaysWithinCap(old(stage), prepared, StageCap());
      AdmissionIsFair(old(stage), prepared, StageCap());
      RefusedIff(old(stage), prepared, StageCap());
      AcceptedDistinct(old(stage), prepared, StageCap());
      UpsertsAt(old(stage), Accepted(old(stage), prepared, StageCap()));
    }

    // The flusher takes the whole stage and leaves an empty one.
    method TakeSnapshot() returns (rows: seq<Row>)
      requires Filed(stage)
      modifies this`stage
      ensures stage == map[] && Lists(rows, old(stage))
    {
      var snapshot := stage;
      stage := map[];
      rows := [];
      var todo := snapshot.Keys;
      while todo != {}
        invariant todo <= snapshot.Keys && DistinctKeys(rows)
        invariant forall r <- rows :: r.key in snapshot.Keys - todo && snapshot[r.key] == r
        invariant forall k <- snapshot.Keys - todo :: snapshot[k] in rows
        decreases |todo|
      {
        var k :| k in todo;
        todo := todo - {k};
        rows := rows + [snapshot[k]];
      }
    }

    // One statement.  The database refuses a statement that names a key
    // twice; ok says whether this one went through.
    method BulkUpsertFacts(chunk: seq<Row>) returns (ok: bool)
      requires DistinctKeys(chunk)
      modifies this`db
      ensures db == if ok then Upserts(old(db), chunk) else old(db)
    {
      ok := *;
      if ok {
        for i := 0 to |chunk|
          invariant db == Upserts(old(db), chunk[..i])
        {
          assert chunk[..i + 1] == chunk[..i] + [chunk[i]];
          db := db[chunk[i].key := chunk[i]];
        }
        assert chunk[..|chunk|] == chunk;
      }
    }

    // The chunks are the rows, cut in order; oks says which statements went
    // through, and exactly their rows are written, whatever failed before.
    method WriteChunks(rows: seq<Row>) returns (flushOK: bool, ghost oks: seq<bool>)
      requires DistinctKeys(rows)
      modifies this`db
      ensures db == Upserts(old(db), Written(rows, oks))
      ensures |oks| == (|rows| + WRITE_CHUNK - 1) / WRITE_CHUNK
      ensures flushOK <==> false !in oks
    {
      hide Upserts, Written;
      flushOK, oks := true, [];
      var start := 0;
      UpsertNothing(db);
      NothingWritten(rows);
      while start < |rows|
        invariant start == ChunkEnd(rows, |oks|)
        invariant db == Upserts(old(db), Written(rows, oks))
        invariant |oks| * WRITE_CHUNK < |rows| + WRITE_CHUNK
        invariant flushOK <==> false !in oks
        decreases |rows| - start
      {
        var end := if start + WRITE_CHUNK > |rows| then |rows| else start + WRITE_CHUNK;
        ChunkDistinct(rows, start, end);
        var ok := BulkUpsertFacts(rows[start..end]);
        assert end == ChunkEnd(rows, |oks| + 1);
        WrittenSnoc(rows, oks, ok);
        if ok {
          UpsertsConcat(old(db), Written(rows, oks), rows[start..end]);
        } else {
          flushOK := false;
        }
        assert false in oks + [ok] <==> false in oks || !ok;
        oks := oks + [ok];
        start := end;
      }
    }

    // Undisturbed, a flush moves the stage into the database; a failed
    // statement leaves the database's own row for the keys it held.
    method FlushFactStage() returns (flushOK: bool)
      requires Filed(stage)
      modifies this
      ensures stage == map[]
      ensures flushOK ==> db == old(db) + old(stage)
      ensures forall k | k in old(db) + old(stage) || k in db ::
                (k in old(stage) && k in db && db[k] == old(stage)[k]) || ((k in db <==> k in old(db)) && (k in db ==> db[k] == old(db)[k]))
    {
      if |stage| == 0 {
        return true;
      }
      ghost var m, n := db, stage;
      var rows := TakeSnapshot();
      ghost var oks;
      flushOK, oks := WriteChunks(rows);
      ghost var written := Written(rows, oks);
      WrittenFrom(rows, oks);
      ChunksCover(rows, |oks|);
      UpsertsAt(m, written);
      ListingOverlays(m, n, rows);
      forall k | k in m + n || k in db
        ensures (k in n && k in db && db[k] == n[k]) || ((k in db <==> k in m) && (k in db ==> db[k] == m[k]))
      {
        if r :| r in written && r.key == k {
          assert db[k] == r == n[k];
        }
      }
    }
  }

  // Where the n-th chunk starts and the one before it ends.
  function ChunkEnd(rows: seq<Row>, n: nat): (end: nat)
    ensures end <= |rows|
  {
    if n * WRITE_CHUNK < |rows| then n * WRITE_CHUNK else |rows|
  }

  // The rows of the chunks whose statement went through, in order.
  function Written(rows: seq<Row>, oks: seq<bool>): seq<Row>
    decreases |oks|
  {
    if oks == [] then []
    else
      var n := |oks| - 1;
      Written(rows, oks[..n]) + if oks[n] && ChunkEnd(rows, n) <= ChunkEnd(rows, n + 1) then rows[ChunkEnd(rows, n)..ChunkEnd(rows, n + 1)] else []
  }

  lemma NothingWritten(rows: seq<Row>)
    ensures Written(rows, []) == []
  {}

  lemma WrittenSnoc(rows: seq<Row>, oks: seq<bool>, ok: bool)
    ensures ChunkEnd(rows, |oks|) <= ChunkEnd(rows, |oks| + 1)
    ensures Written(rows, oks + [ok]) == if ok then Written(rows, oks) + rows[ChunkEnd(rows, |oks|)..ChunkEnd(rows, |oks| + 1)] else Written(rows, oks)
  {
    assert (oks + [ok])[..|oks|] == oks;
  }

  // Written rows are distinct rows of the list, and all of them if no statement
  // failed.
  lemma {:induction false} WrittenFrom(rows: seq<Row>, oks: seq<bool>)
    requires DistinctKeys(rows)
    ensures DistinctKeys(Written(rows, oks)) && From(Written(rows, oks), rows[..ChunkEnd(rows, |oks|)])
    ensures false !in oks ==> Written(rows, oks) == rows[..ChunkEnd(rows, |oks|)]
    decreases |oks|
  {
    hide ChunkEnd, From, Written, DistinctKeys;
    if oks == [] {
      NothingWritten(rows);
      FirstChunk(rows);
    } else {
      var init, ok := oks[..|oks| - 1], oks[|oks| - 1];
      assert oks == init + [ok];
      assert false in oks <==> false in init || !ok;
      WrittenFrom(rows, init);
      WrittenSnoc(rows, init, ok);
      CutGrows(rows, ChunkEnd(rows, |init|), ChunkEnd(rows, |oks|), Written(rows, init));
    }
  }

  // A row is written exactly when the statement of its own chunk went through, no
  // matter what became of the others.
  lemma {:induction false} WrittenIff(rows: seq<Row>, oks: seq<bool>, i: nat)
    requires DistinctKeys(rows) && i < |rows|
    ensures rows[i] in Written(rows, oks) <==> i / WRITE_CHUNK < |oks| && oks[i / WRITE_CHUNK]
  {
    if oks != [] {
      var n := |oks| - 1;
      assert oks == oks[..n] + [oks[n]];
      WrittenIff(rows, oks[..n], i);
      WrittenSnoc(rows, oks[..n], oks[n]);
      InChunk(rows, n, i);
    }
  }

  lemma InChunk(rows: seq<Row>, n: nat, i: nat)
    requires DistinctKeys(rows) && i < |rows|
    ensures ChunkEnd(rows, n) <= ChunkEnd(rows, n + 1)
    ensures rows[i] in rows[ChunkEnd(rows, n)..ChunkEnd(rows, n + 1)] <==> i / WRITE_CHUNK == n
  {
    var lo, hi := ChunkEnd(rows, n), ChunkEnd(rows, n + 1);
    assert i / WRITE_CHUNK == n <==> lo <= i < hi;
    if lo <= i < hi { assert rows[lo..hi][i - lo] == rows[i]; }
    if rows[i] in rows[lo..hi] {
      var j :| 0 <= j < hi - lo && rows[lo..hi][j] == rows[i];
      assert rows[lo + j].key == rows[i].key;
    }
  }

  ghost predicate From(part: seq<Row>, whole: seq<Row>) {
    forall r <- part :: r in whole
  }

  lemma CutGrows(rows: seq<Row>, start: nat, end: nat, w: seq<Row>)
    requires start <= end <= |rows| && DistinctKeys(rows) && DistinctKeys(w) && From(w, rows[..start])
    ensures DistinctKeys(w + rows[start..end]) && From(w + rows[start..end], rows[..end]) && From(w, rows[..end])
    ensures rows[..start] + rows[start..end] == rows[..end]
  {
    assert rows[..end] == rows[..start] + rows[start..end];
    ChunkIsNew(rows, start, end, w);
  }

  lemma FirstChunk(rows: seq<Row>)
    ensures ChunkEnd(rows, 0) == 0 && rows[..0] == [] && DistinctKeys([]) && From([], [])
  {}

  lemma ChunksCover(rows: seq<Row>, n: nat)
    requires n == (|rows| + WRITE_CHUNK - 1) / WRITE_CHUNK
    ensures rows[..ChunkEnd(rows, n)] == rows
  {}

  lemma ChunkDistinct(rows: seq<Row>, start: nat, end: nat)
    requires start <= end <= |rows| && DistinctKeys(rows)
    ensures DistinctKeys(rows[start..end])
  {}

  lemma ChunkIsNew(rows: seq<Row>, start: nat, end: nat, written: seq<Row>)
    requires start <= end <= |rows| && DistinctKeys(rows) && DistinctKeys(written) && forall r <- written :: r in rows[..start]
    ensures DistinctKeys(written + rows[start..end])
  {
    forall i, j | 0 <= i < |written| && start <= j < end ensures written[i].key != rows[j].key {
      assert written[i] in rows[..start];
    }
  }

  lemma StagedNothing(stage: Facts, cap: nat)
    ensures Staged(stage, [], cap) == stage && Accepted(stage, [], cap) == []
  {}

  lemma UpsertNothing(m: Facts)
    ensures Upserts(m, []) == m
  {}

  lemma DistinctSnoc(rows: seq<Row>, r: Row)
    requires DistinctKeys(rows) && forall q <- rows :: q.key != r.key
    ensures DistinctKeys(rows + [r])
  {
    assert forall i | 0 <= i < |rows| :: rows[i] in rows;
  }

  lemma LastKeyIsNew(rows: seq<Row>)
    requires DistinctKeys(rows) && rows != []
    ensures DistinctKeys(rows[..|rows| - 1]) && forall q <- rows[..|rows| - 1] :: q.key != rows[|rows| - 1].key
  {}

  lemma {:induction false} AcceptedDistinct(stage: Facts, rows: seq<Row>, cap: nat)
    requires DistinctKeys(rows)
    ensures DistinctKeys(Accepted(stage, rows, cap)) && forall r <- Accepted(stage, rows, cap) :: r in rows
    decreases |rows|
  {
    hide Upserts, Full, DistinctKeys;
    if rows == [] {
      StagedNothing(stage, cap);
    } else {
      var init, last := rows[..|rows| - 1], rows[|rows| - 1];
      LastKeyIsNew(rows);
      AcceptedDistinct(stage, init, cap);
      DistinctSnoc(Accepted(stage, init, cap), last);
      assert forall r <- init :: r in rows;
    }
  }

  // --------------------------------------------------------------------
  // Staging and flushing interleaved
  // --------------------------------------------------------------------

  // unwritten: what is left of the flusher's snapshot.
  datatype Batcher = Batcher(db: Facts, unwritten: seq<Row>, stage: Facts)

  datatype Event =
    | StageRows(rows: seq<Row>)
    | Snapshot(order: seq<Row>)
    | WriteChunk
    | LoseChunk

  function ChunkSize(s: Batcher): nat {
    if |s.unwritten| < WRITE_CHUNK then |s.unwritten| else WRITE_CHUNK
  }

  ghost predicate Next(s: Batcher, e: Event, t: Batcher, cap: nat) {
    match e
    case StageRows(rows) =>
      t == s.(stage := Staged(s.stage, rows, cap))
    case Snapshot(order) =>
      s.unwritten == [] && s.stage != map[] && Lists(order, s.stage) && t == s.(unwritten := order, stage := map[])
    case WriteChunk =>
      s.unwritten != [] && t == s.(db := Upserts(s.db, s.unwritten[..ChunkSize(s)]), unwritten := s.unwritten[ChunkSize(s)..])
    case LoseChunk =>
      s.unwritten != [] && t == s.(unwritten := s.unwritten[ChunkSize(s)..])
  }

  // What a reader would see with every pending row in place.
  function Effective(s: Batcher): Facts {
    Upserts(s.db, s.unwritten) + s.stage
  }

  ghost predicate Sane(s: Batcher, cap: nat) {
    Filed(s.stage) && DistinctKeys(s.unwritten) && |s.stage| <= cap
  }

  // The rows an event lets in.
  function LetIn(s: Batcher, e: Event, cap: nat): seq<Row> {
    if e.StageRows? then Accepted(s.stage, e.rows, cap) else []
  }

  lemma WriteKeepsEffective(db: Facts, u: seq<Row>, n: nat)
    requires n <= |u|
    ensures Upserts(Upserts(db, u[..n]), u[n..]) == Upserts(db, u)
  {
    UpsertsConcat(db, u[..n], u[n..]);
    assert u == u[..n] + u[n..];
  }

  lemma StepKeepsSane(s: Batcher, e: Event, t: Batcher, cap: nat)
    requires Sane(s, cap) && Next(s, e, t, cap)
    ensures Sane(t, cap)
  {
    hide Upserts, Accepted, Staged;
    if e.StageRows? { StageStaysWithinCap(s.stage, e.rows, cap); }
  }

  lemma StepRefines(s: Batcher, e: Event, t: Batcher, cap: nat)
    requires Sane(s, cap) && Next(s, e, t, cap) && !e.LoseChunk?
    ensures Effective(t) == Upserts(Effective(s), LetIn(s, e, cap))
  {
    hide Upserts, Accepted, Filed, Lists, DistinctKeys;
    UpsertNothing(Effective(s));
    if e.StageRows? {
      UpsertsUnder(Upserts(s.db, s.unwritten), s.stage, Accepted(s.stage, e.rows, cap));
    } else if e.Snapshot? {
      UpsertNothing(s.db);
      ListingOverlays(s.db, s.stage, e.order);
      assert (s.db + s.stage) + map[] == s.db + s.stage;
    } else {
      WriteKeepsEffective(s.db, s.unwritten, ChunkSize(s));
    }
  }

  ghost predicate IsRun(states: seq<Batcher>, events: seq<Event>, cap: nat) {
    && |states| == |events| + 1
    && states[0].unwritten == [] && states[0].stage == map[]
    && forall i | 0 <= i < |events| :: Next(states[i], events[i], states[i + 1], cap)
  }

  // Every row let in before state n, in order.
  function AllLetIn(states: seq<Batcher>, events: seq<Event>, n: nat, cap: nat): seq<Row>
    requires n <= |events| && |states| == |events| + 1
  {
    if n == 0 then [] else AllLetIn(states, events, n - 1, cap) + LetIn(states[n - 1], events[n - 1], cap)
  }

  lemma StartsExact(s: Batcher, cap: nat)
    requires s.unwritten == [] && s.stage == map[]
    ensures Sane(s, cap) && Effective(s) == Upserts(s.db, [])
  {}

  // Without a failed write, staging is the same as upserting every accepted
  // row directly, in order, at every moment of every run.
  lemma {:induction false} StagingRefinesUpserts(states: seq<Batcher>, events: seq<Event>, n: nat, cap: nat)
    requires IsRun(states, events, cap) && n <= |events|
    ensures Sane(states[n], cap)
    ensures LoseChunk !in events[..n] ==> Effective(states[n]) == Upserts(states[0].db, AllLetIn(states, events, n, cap))
  {
    hide Upserts, Next, Sane, Effective, LetIn;
    if n > 0 {
      StagingRefinesUpserts(states, events, n - 1, cap);
      assert events[..n] == events[..n - 1] + [events[n - 1]];
      StepKeepsSane(states[n - 1], events[n - 1], states[n], cap);
      if !events[n - 1].LoseChunk? { StepRefines(states[n - 1], events[n - 1], states[n], cap); }
      UpsertsConcat(states[0].db, AllLetIn(states, events, n - 1, cap), LetIn(states[n - 1], events[n - 1], cap));
    } else {
      StartsExact(states[0], cap);
    }
  }

  // Once everything pending is written the database itself is that result.
  lemma DrainedIsExact(states: seq<Batcher>, events: seq<Event>, n: nat, cap: nat)
    requires IsRun(states, events, cap) && n <= |events| && LoseChunk !in events[..n]
    requires states[n].unwritten == [] && states[n].stage == map[]
    ensures states[n].db == Upserts(states[0].db, AllLetIn(states, events, n, cap))
  {
    StagingRefinesUpserts(states, events, n, cap);
    assert states[n].db + map[] == states[n].db;
  }

  // rows of m come from base or from history.
  ghost predicate KnownFacts(m: Facts, base: Facts, history: seq<Row>) {
    forall k <- m :: m[k] in history || (k in base && base[k] == m[k])
  }

  lemma {:induction false} UpsertsKnown(m: Facts, rows: seq<Row>, base: Facts, history: seq<Row>)
    requires KnownFacts(m, base, history) && forall r <- rows :: r in history
    ensures KnownFacts(Upserts(m, rows), base, history)
    decreases |rows|
  {
    if rows != [] {
      assert rows[|rows| - 1] in rows;
      UpsertsKnown(m, rows[..|rows| - 1], base, history);
    }
  }

  lemma ListedKnown(m: Facts, rows: seq<Row>, history: seq<Row>)
    requires Lists(rows, m) && KnownFacts(m, map[], history)
    ensures forall r <- rows :: r in history
  {}

  // Lost writes can leave a key stale or missing, but nothing is invented:
  // every row in the database, in the snapshot or staged was there at the
  // start or was let in.
  lemma {:induction false} NothingInvented(states: seq<Batcher>, events: seq<Event>, n: nat, cap: nat)
    requires IsRun(states, events, cap) && n <= |events|
    ensures var h := AllLetIn(states, events, n, cap);
            KnownFacts(states[n].db, states[0].db, h) && KnownFacts(states[n].stage, map[], h) && forall r <- states[n].unwritten :: r in h
  {
    hide Upserts, Accepted, Lists, KnownFacts;
    if n > 0 {
      NothingInvented(states, events, n - 1, cap);
      var s, e := states[n - 1], events[n - 1];
      var was, more := AllLetIn(states, events, n - 1, cap), LetIn(s, e, cap);
      assert Next(s, e, states[n], cap);
      KnownGrows(s.db, states[0].db, was, more);
      KnownGrows(s.stage, map[], was, more);
      match e
      case StageRows(rows) => UpsertsKnown(s.stage, more, map[], was + more);
      case Snapshot(order) =>
        ListedKnown(s.stage, order, was + more);
        NoneKnown(was + more);
      case WriteChunk => UpsertsKnown(s.db, s.unwritten[..ChunkSize(s)], states[0].db, was + more);
      case LoseChunk =>
    } else {
      BaseKnown(states[0].db);
      NoneKnown([]);
    }
  }

  lemma KnownGrows(m: Facts, base: Facts, history: seq<Row>, more: seq<Row>)
    requires KnownFacts(m, base, history)
    ensures KnownFacts(m, base, history + more)
  {}

  lemma BaseKnown(base: Facts)
    ensures KnownFacts(base, base, [])
  {}

  lemma NoneKnown(history: seq<Row>)
    ensures KnownFacts(map[], map[], history)
  {}
}
