/** Loading a draft's tables: by name, but an alias loaded earlier comes first. */
module Loading {
  import opened Prelude
  import opened SqlValues
  import opened Joins
  import opened Draft

  datatype Relation = Relation(cols: set<string>, rows: seq<Row>)

  /** The stored tables, by qualified name. */
  type Database = map<string, Relation>

  function RelationOf(db: Database, t: TableRef): Relation {
    if t.name in db then db[t.name] else Relation({}, [])
  }

  function Cols(db: Database, tables: seq<TableRef>): (r: seq<set<string>>)
    ensures |r| == |tables| && forall i | 0 <= i < |r| :: r[i] == RelationOf(db, tables[i]).cols
  {
    seq(|tables|, i requires 0 <= i < |tables| => RelationOf(db, tables[i]).cols)
  }

  function Rows(db: Database, tables: seq<TableRef>): (r: seq<seq<Row>>)
    ensures |r| == |tables| && forall i | 0 <= i < |r| :: r[i] == RelationOf(db, tables[i]).rows
  {
    seq(|tables|, i requires 0 <= i < |tables| => RelationOf(db, tables[i]).rows)
  }

  /** The two ways a draft is executed: compiled to one SQL statement, or step by step on data frames. */
  datatype Engine = CompiledSql | DataFrames

  /**
   * The name of table i is taken for the alias of table j, loaded before it. In SQL the
   * aliases are common table expressions, which a name of several parts never means.
   */
  predicate Captures(e: Engine, tables: seq<TableRef>, i: nat, j: nat)
    requires j < i < |tables|
  {
    tables[j].alias == tables[i].name && (e.CompiledSql? ==> '.' !in tables[i].name)
  }

  /** The latest table before the n-th that captures table i. */
  function CaptorBefore(e: Engine, tables: seq<TableRef>, i: nat, n: nat): (r: Option<nat>)
    requires n <= i < |tables|
    ensures r.Some? ==> r.value < n && Captures(e, tables, i, r.value)
    ensures r.None? ==> forall j: nat | j < n :: !Captures(e, tables, i, j)
  {
    if n == 0 then None
    else if Captures(e, tables, i, n - 1) then Some(n - 1)
    else CaptorBefore(e, tables, i, n - 1)
  }

  function Captor(e: Engine, tables: seq<TableRef>, i: nat): (r: Option<nat>)
    requires i < |tables|
    ensures r.Some? ==> r.value < i && Captures(e, tables, i, r.value)
    ensures r.None? ==> forall j: nat | j < i :: !Captures(e, tables, i, j)
  {
    CaptorBefore(e, tables, i, i)
  }

  /** The table whose stored relation table i is read from. */
  function Root(e: Engine, tables: seq<TableRef>, i: nat): (r: nat)
    requires i < |tables|
    ensures r <= i
  {
    var j := Captor(e, tables, i);
    if j.Some? then Root(e, tables, j.value) else i
  }

  /**
   * The next table's rows: stored and filtered, or those of the table that captures it. On
   * data frames the filters of a captured table are not applied.
   */
  function LoadNext(e: Engine, o: Oracle, db: Database, tables: seq<TableRef>, fs: seq<TableFilter>,
                    before: seq<seq<Row>>): seq<Row>
    requires |before| < |tables| == |fs|
  {
    var i := |before|;
    match Captor(e, tables, i)
    case None => FilterRows(o, fs[i], RelationOf(db, tables[i]).rows)
    case Some(j) => if e.DataFrames? then before[j] else FilterRows(o, fs[i], before[j])
  }

  /** The rows of the first n tables as they are joined. */
  function LoadedFirst(e: Engine, o: Oracle, db: Database, tables: seq<TableRef>, fs: seq<TableFilter>,
                       n: nat): (r: seq<seq<Row>>)
    requires n <= |tables| == |fs|
    ensures |r| == n
  {
    if n == 0 then []
    else
      var before := LoadedFirst(e, o, db, tables, fs, n - 1);
      before + [LoadNext(e, o, db, tables, fs, before)]
  }

  function Loaded(e: Engine, o: Oracle, db: Database, tables: seq<TableRef>, fs: seq<TableFilter>): (r: seq<seq<Row>>)
    requires |fs| == |tables|
    ensures |r| == |tables|
  {
    LoadedFirst(e, o, db, tables, fs, |tables|)
  }

  function LoadedCols(e: Engine, db: Database, tables: seq<TableRef>, i: nat): set<string>
    requires i < |tables|
  {
    RelationOf(db, tables[Root(e, tables, i)]).cols
  }

  predicate DistinctAliases(tables: seq<TableRef>) {
    forall i, j | 0 <= i < j < |tables| :: tables[i].alias != tables[j].alias
  }

  lemma OneCaptor(e: Engine, tables: seq<TableRef>, i: nat, j: nat)
    requires DistinctAliases(tables) && j < i < |tables| && Captures(e, tables, i, j)
    ensures Captor(e, tables, i) == Some(j)
  {
  }

  /** A frame under the alias of every loaded table, and no others. */
  ghost predicate Framed(frames: map<string, seq<Row>>, tables: seq<TableRef>, loaded: seq<seq<Row>>)
    requires |loaded| <= |tables|
  {
    && (forall k | 0 <= k < |loaded| :: tables[k].alias in frames && frames[tables[k].alias] == loaded[k])
    && frames.Keys == AliasesBefore(tables, |loaded|)
  }

  function AliasesBefore(tables: seq<TableRef>, n: nat): set<string>
    requires n <= |tables|
  {
    set k | 0 <= k < n :: tables[k].alias
  }

  lemma NextFrame(frames: map<string, seq<Row>>, o: Oracle, db: Database, tables: seq<TableRef>, fs: seq<TableFilter>,
                  loaded: seq<seq<Row>>)
    requires |loaded| < |tables| == |fs| && DistinctAliases(tables) && Framed(frames, tables, loaded)
    ensures LoadNext(DataFrames, o, db, tables, fs, loaded)
            == if tables[|loaded|].name in frames then frames[tables[|loaded|].name]
               else FilterRows(o, fs[|loaded|], RelationOf(db, tables[|loaded|]).rows)
  {
    if tables[|loaded|].name in frames {
      var j :| 0 <= j < |loaded| && tables[j].alias == tables[|loaded|].name;
      OneCaptor(DataFrames, tables, |loaded|, j);
    }
  }

  lemma FrameAdded(frames: map<string, seq<Row>>, tables: seq<TableRef>, loaded: seq<seq<Row>>, rows: seq<Row>)
    requires |loaded| < |tables| && DistinctAliases(tables) && Framed(frames, tables, loaded)
    ensures Framed(frames[tables[|loaded|].alias := rows], tables, loaded + [rows])
  {
    var n := |loaded|;
    assert AliasesBefore(tables, n + 1) == AliasesBefore(tables, n) + {tables[n].alias};
  }

  /** One turn of the loop: the frame for the next table. */
  lemma FrameStep(frames: map<string, seq<Row>>, o: Oracle, db: Database, tables: seq<TableRef>, fs: seq<TableFilter>,
                  i: nat, rows: seq<Row>)
    requires i < |tables| == |fs| && DistinctAliases(tables)
    requires Framed(frames, tables, LoadedFirst(DataFrames, o, db, tables, fs, i))
    requires rows == if tables[i].name in frames then frames[tables[i].name]
                     else FilterRows(o, fs[i], RelationOf(db, tables[i]).rows)
    ensures Framed(frames[tables[i].alias := rows], tables, LoadedFirst(DataFrames, o, db, tables, fs, i + 1))
  {
    var loaded := LoadedFirst(DataFrames, o, db, tables, fs, i);
    NextFrame(frames, o, db, tables, fs, loaded);
    FrameAdded(frames, tables, loaded, rows);
  }

  /** The loading loop: a frame under every alias, read from the store only where no frame has the table's name. */
  method LoadFrames(o: Oracle, db: Database, tables: seq<TableRef>, fs: seq<TableFilter>)
    returns (frames: map<string, seq<Row>>)
    requires |fs| == |tables| && DistinctAliases(tables)
    ensures forall i | 0 <= i < |tables| ::
              tables[i].alias in frames && frames[tables[i].alias] == Loaded(DataFrames, o, db, tables, fs)[i]
  {
    frames := map[];
    for i := 0 to |tables|
      invariant Framed(frames, tables, LoadedFirst(DataFrames, o, db, tables, fs, i))
    {
      var t := tables[i];
      ghost var before := frames;
      if t.name in frames {
        frames := frames[t.alias := frames[t.name]];
      } else {
        frames := frames[t.alias := FilterRows(o, fs[i], RelationOf(db, t).rows)];
      }
      FrameStep(before, o, db, tables, fs, i, frames[t.alias]);
    }
  }

  lemma {:induction false} LoadedPrefix(e: Engine, o: Oracle, db: Database, tables: seq<TableRef>, fs: seq<TableFilter>,
                                        i: nat, n: nat)
    requires i <= n <= |tables| == |fs|
    ensures LoadedFirst(e, o, db, tables, fs, n)[..i] == LoadedFirst(e, o, db, tables, fs, i)
  {
    if i < n { LoadedPrefix(e, o, db, tables, fs, i, n - 1); }
  }

  lemma LoadedNth(e: Engine, o: Oracle, db: Database, tables: seq<TableRef>, fs: seq<TableFilter>, i: nat)
    requires i < |tables| == |fs|
    ensures Loaded(e, o, db, tables, fs)[i] == LoadNext(e, o, db, tables, fs, Loaded(e, o, db, tables, fs)[..i])
  {
    LoadedPrefix(e, o, db, tables, fs, i, |tables|);
    LoadedPrefix(e, o, db, tables, fs, i + 1, |tables|);
    var all := Loaded(e, o, db, tables, fs);
    assert all[i] == all[..i + 1][i];
  }

  /**
   * A table named like an earlier alias has that table's rows, filtered once more in SQL and
   * not at all on data frames; any other one has its own stored rows, filtered, and so has
   * one of a name with several parts in SQL.
   */
  lemma LoadedExactly(e: Engine, o: Oracle, db: Database, tables: seq<TableRef>, fs: seq<TableFilter>, i: nat)
    requires i < |tables| == |fs| && DistinctAliases(tables)
    ensures var all := Loaded(e, o, db, tables, fs);
            var aliased := e.DataFrames? || '.' !in tables[i].name;
            && (forall j: nat | j < i && tables[j].alias == tables[i].name && aliased ::
                  all[i] == if e.DataFrames? then all[j] else FilterRows(o, fs[i], all[j]))
            && ((!aliased || forall j: nat | j < i :: tables[j].alias != tables[i].name) ==>
                  all[i] == FilterRows(o, fs[i], RelationOf(db, tables[i]).rows))
  {
    LoadedNth(e, o, db, tables, fs, i);
    forall j: nat | j < i && tables[j].alias == tables[i].name && (e.DataFrames? || '.' !in tables[i].name)
      ensures Captor(e, tables, i) == Some(j)
    {
      OneCaptor(e, tables, i, j);
    }
  }

  // ---- when loading gives every table its own rows ----

  /** A captured table is the very table that captures it, and no filter comes in or gets lost. */
  predicate LoadsOwn(e: Engine, tables: seq<TableRef>, fs: seq<TableFilter>)
    requires |fs| == |tables|
  {
    forall i: nat, j: nat | j < i < |tables| && Captures(e, tables, i, j) ::
      tables[j].name == tables[i].name && fs[j] == NO_FILTER && (e.DataFrames? ==> fs[i] == NO_FILTER)
  }

  /** Every captured table is the very table that captures it. */
  predicate SameTables(e: Engine, tables: seq<TableRef>) {
    forall i: nat, j: nat | j < i < |tables| && Captures(e, tables, i, j) :: tables[j].name == tables[i].name
  }

  /** What captures a table of the same name is named like its alias, so nothing captures it in turn. */
  lemma CaptorIsFree(e: Engine, tables: seq<TableRef>, i: nat, j: nat)
    requires DistinctAliases(tables) && j < i < |tables| && Captures(e, tables, i, j) && tables[j].name == tables[i].name
    ensures Captor(e, tables, i) == Some(j) && Captor(e, tables, j).None?
  {
    OneCaptor(e, tables, i, j);
  }

  /** Then loading is filtering every table. */
  lemma {:induction false} LoadedIsOwn(e: Engine, o: Oracle, db: Database, tables: seq<TableRef>, fs: seq<TableFilter>,
                                       all: seq<seq<Row>>, n: nat)
    requires n <= |tables| == |fs| == |all| && DistinctAliases(tables) && LoadsOwn(e, tables, fs)
    requires all == FilterTables(o, fs, Rows(db, tables))
    ensures LoadedFirst(e, o, db, tables, fs, n) == all[..n]
  {
    if n > 0 {
      LoadedIsOwn(e, o, db, tables, fs, all, n - 1);
      NextIsOwn(e, o, db, tables, fs, all[..n - 1]);
      PrefixSnoc(all, n);
    }
  }

  lemma PrefixSnoc(all: seq<seq<Row>>, n: nat)
    requires 0 < n <= |all|
    ensures all[..n] == all[..n - 1] + [all[n - 1]]
  {
  }

  lemma NextIsOwn(e: Engine, o: Oracle, db: Database, tables: seq<TableRef>, fs: seq<TableFilter>, before: seq<seq<Row>>)
    requires |before| < |tables| == |fs| && DistinctAliases(tables) && LoadsOwn(e, tables, fs)
    requires before == FilterTables(o, fs, Rows(db, tables))[..|before|]
    ensures LoadNext(e, o, db, tables, fs, before) == FilterTables(o, fs, Rows(db, tables))[|before|]
  {
    var i := |before|;
    var c := Captor(e, tables, i);
    if c.Some? {
      assert before[c.value] == FilterRows(o, fs[c.value], RelationOf(db, tables[i]).rows);
      NoFilterKeepsAll(o, RelationOf(db, tables[i]).rows);
    }
  }

  lemma AllLoadedIsOwn(e: Engine, o: Oracle, db: Database, tables: seq<TableRef>, fs: seq<TableFilter>)
    requires |tables| == |fs| && DistinctAliases(tables) && LoadsOwn(e, tables, fs)
    ensures Loaded(e, o, db, tables, fs) == FilterTables(o, fs, Rows(db, tables))
  {
    LoadedIsOwn(e, o, db, tables, fs, FilterTables(o, fs, Rows(db, tables)), |tables|);
  }

  lemma ColsAreOwn(e: Engine, db: Database, tables: seq<TableRef>, i: nat)
    requires i < |tables| && DistinctAliases(tables) && SameTables(e, tables)
    ensures LoadedCols(e, db, tables, i) == RelationOf(db, tables[i]).cols
  {
    var c := Captor(e, tables, i);
    if c.Some? {
      CaptorIsFree(e, tables, i, c.value);
      assert Root(e, tables, c.value) == c.value && Root(e, tables, i) == c.value;
    }
  }

  /** Loading depends on the stored tables it reads. */
  ghost predicate SameRoots(e: Engine, db: Database, db': Database, tables: seq<TableRef>) {
    forall i | 0 <= i < |tables| ::
      RelationOf(db, tables[Root(e, tables, i)]) == RelationOf(db', tables[Root(e, tables, i)])
  }

  lemma {:induction false} LoadedAlike(e: Engine, o: Oracle, db: Database, db': Database, tables: seq<TableRef>,
                                       fs: seq<TableFilter>, n: nat)
    requires n <= |tables| == |fs| && SameRoots(e, db, db', tables)
    ensures LoadedFirst(e, o, db, tables, fs, n) == LoadedFirst(e, o, db', tables, fs, n)
  {
    if n > 0 {
      LoadedAlike(e, o, db, db', tables, fs, n - 1);
      var before := LoadedFirst(e, o, db, tables, fs, n - 1);
      assert LoadNext(e, o, db, tables, fs, before) == LoadNext(e, o, db', tables, fs, before) by {
        if Captor(e, tables, n - 1).None? { assert Root(e, tables, n - 1) == n - 1; }
      }
    }
  }
}
