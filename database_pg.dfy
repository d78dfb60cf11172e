/**
 * The record store: the `extracted_emails` table as a sequence of rows with a
 * SERIAL id counter, the size-capped insert, the explicit truncation, and the
 * builder of the filtered history query.
 *
 * The PostgreSQL connection, the size query and query execution are not
 * modelled: the size measurement and the point at which a database call raises
 * are parameters of each insert.
 */
module DatabasePg {
  import opened Wrappers

  /** One row of `extracted_emails(id SERIAL, keyword, email UNIQUE, source, created_at)`. */
  datatype Row = Row(id: nat, keyword: string, email: string, source: string, createdAt: int)

  /** The table contents and the next value of the id sequence. */
  datatype Table = Table(rows: seq<Row>, nextId: nat)

  /** A freshly created table: no rows, the sequence starts at 1. */
  const EmptyTable: Table := Table([], 1)

  function EmailsOf(rows: seq<Row>): seq<string>
  {
    seq(|rows|, i requires 0 <= i < |rows| => rows[i].email)
  }

  /**
   * The table's integrity: `email` is UNIQUE, ids come from the sequence in
   * increasing order, and every id already handed out is below `nextId`.
   */
  ghost predicate TableValid(t: Table)
  {
    && 1 <= t.nextId
    && (forall i, j :: 0 <= i < j < |t.rows| ==> t.rows[i].email != t.rows[j].email)
    && (forall i, j :: 0 <= i < j < |t.rows| ==> t.rows[i].id < t.rows[j].id)
    && (forall i :: 0 <= i < |t.rows| ==> 1 <= t.rows[i].id < t.nextId)
  }

  // ---------------------------------------------------------------------------
  // Insert with storage protection (database_pg.py:9, 56-60, 69-105)
  // ---------------------------------------------------------------------------

  /** MAX_DB_SIZE_GB = 0.45, in thousandths of a gigabyte (the size is rounded to three decimals). */
  const MaxDbSizeMilliGb: nat := 450

  /** The first database call of `insert_email` that raises, if any. */
  datatype Fault =
    | NoFault
    | SizeQueryFails   // get_database_size_gb raises
    | TruncateFails    // truncate_database raises before its commit
    | TruncateCleanupFails // truncate_database raises after its commit: the table is already empty
    | InsertFails      // connecting or executing the INSERT raises
    | CommitFails      // the INSERT ran but its commit raises: the row is rolled back

  /** What one `insert_email` call observes: the measured size, the clock, and a fault point. */
  datatype Probe = Probe(sizeMilliGb: nat, now: int, fault: Fault)

  /** The INSERT statement is reached and runs (the faults before it do not fire). */
  predicate InsertExecuted(probe: Probe)
  {
    && probe.fault != SizeQueryFails
    && !(probe.sizeMilliGb >= MaxDbSizeMilliGb && probe.fault == TruncateFails)
    && !(probe.sizeMilliGb >= MaxDbSizeMilliGb && probe.fault == TruncateCleanupFails)
    && probe.fault != InsertFails
  }

  /** The size reached the ceiling and the truncation committed: the old rows are gone. */
  predicate Wiped(probe: Probe)
  {
    probe.sizeMilliGb >= MaxDbSizeMilliGb && probe.fault != SizeQueryFails && probe.fault != TruncateFails
  }

  /** The INSERT runs and its transaction commits. */
  predicate Committed(probe: Probe)
  {
    InsertExecuted(probe) && probe.fault != CommitFails
  }

  datatype InsertOutcome = InsertOutcome(table: Table, inserted: bool, truncated: bool)

  /**
   * `INSERT ... ON CONFLICT (email) DO NOTHING RETURNING id`: the sequence value is
   * drawn in both cases; the row is added and an id returned only without conflict.
   */
  function InsertRow(t: Table, keyword: string, email: string, source: string, now: int): (r: (Table, bool))
    ensures TableValid(t) ==> TableValid(r.0)
    ensures r.1 <==> email !in EmailsOf(t.rows)
    ensures email in EmailsOf(r.0.rows)
    ensures r.0.nextId == t.nextId + 1
  {
    if email in EmailsOf(t.rows) then (Table(t.rows, t.nextId + 1), false)
    else
      var row := Row(t.nextId, keyword, email, source, now);
      EmailsOfAppend(t.rows, row);
      (Table(t.rows + [row], t.nextId + 1), true)
  }

  lemma EmailsOfAppend(rows: seq<Row>, row: Row)
    ensures EmailsOf(rows + [row]) == EmailsOf(rows) + [row.email]
    ensures forall i :: 0 <= i < |rows| ==> rows[i].email in EmailsOf(rows)
  {
    forall i | 0 <= i < |rows| ensures rows[i].email in EmailsOf(rows) {
      assert EmailsOf(rows)[i] == rows[i].email;
    }
  }

  /**
   * The effect of `insert_email(keyword, email, source)`: size check, optional
   * truncation with identity reset, insert-unless-present; an exception is
   * swallowed and the flags as set so far are returned, so a truncation that
   * raises after its commit leaves the table empty with `truncated` still false.
   */
  function InsertEmailSpec(t: Table, keyword: string, email: string, source: string, probe: Probe): (o: InsertOutcome)
    ensures TableValid(t) ==> TableValid(o.table)
    ensures o.truncated <==> Wiped(probe) && probe.fault != TruncateCleanupFails
    ensures Wiped(probe) ==> forall r :: r in o.table.rows ==> r == Row(1, keyword, email, source, probe.now)
    ensures !Wiped(probe) ==>
      o.table.rows == t.rows || o.table.rows == t.rows + [Row(t.nextId, keyword, email, source, probe.now)]
    ensures o.inserted <==> InsertExecuted(probe) && (o.truncated || email !in EmailsOf(t.rows))
    ensures Committed(probe) ==> email in EmailsOf(o.table.rows)
    ensures Committed(probe) && o.inserted ==>
      o.table.rows[|o.table.rows| - 1] == Row(if o.truncated then 1 else t.nextId, keyword, email, source, probe.now)
    ensures !Committed(probe) ==> o.table.rows == if Wiped(probe) then [] else t.rows
  {
    if probe.fault == SizeQueryFails then InsertOutcome(t, false, false)
    else
      var over := probe.sizeMilliGb >= MaxDbSizeMilliGb;
      if over && probe.fault == TruncateFails then InsertOutcome(t, false, false)
      else if over && probe.fault == TruncateCleanupFails then InsertOutcome(EmptyTable, false, false)
      else
        var base := if over then EmptyTable else t;
        assert EmailsOf(EmptyTable.rows) == [];
        if probe.fault == InsertFails then InsertOutcome(base, false, over)
        else
          var (staged, returned) := InsertRow(base, keyword, email, source, probe.now);
          assert returned ==> staged.rows[|staged.rows| - 1].email == email;
          if probe.fault == CommitFails then InsertOutcome(Table(base.rows, staged.nextId), returned, over)
          else InsertOutcome(staged, returned, over)
  }

  /** Two inserts of the same address in a row, with the size below the ceiling and no fault. */
  lemma InsertTwiceAddsOnce(t: Table, keyword: string, email: string, source: string, p1: Probe, p2: Probe)
    requires TableValid(t)
    requires p1.fault == NoFault && p2.fault == NoFault
    requires p1.sizeMilliGb < MaxDbSizeMilliGb && p2.sizeMilliGb < MaxDbSizeMilliGb
    requires email !in EmailsOf(t.rows)
    ensures var o1 := InsertEmailSpec(t, keyword, email, source, p1);
            var o2 := InsertEmailSpec(o1.table, keyword, email, source, p2);
            o1.inserted && !o2.inserted && |o2.table.rows| == |t.rows| + 1
  {
  }

  /**
   * A truncation that commits and then raises, in closing its cursor or its
   * connection, empties the table, yet the call reports neither a truncation nor
   * an insert: the rows are lost while `truncated` stays false.
   */
  lemma WipedButNotFlagged(t: Table, keyword: string, email: string, source: string, probe: Probe)
    requires t.rows != []
    requires probe.sizeMilliGb >= MaxDbSizeMilliGb && probe.fault == TruncateCleanupFails
    ensures var o := InsertEmailSpec(t, keyword, email, source, probe);
            o.table == EmptyTable && o.table.rows != t.rows && !o.truncated && !o.inserted
  {
  }

  /**
   * The store object: the table the application reads and writes through
   * `insert_email` and `truncate_database`.
   */
  class Store {
    var rows: seq<Row>
    var nextId: nat

    ghost predicate Valid()
      reads this
    {
      TableValid(Table(rows, nextId))
    }

    function State(): Table
      reads this
    {
      Table(rows, nextId)
    }

    /** `init_db` on an empty database: the table exists and is empty. */
    constructor ()
      ensures Valid() && State() == EmptyTable
    {
      rows := [];
      nextId := 1;
    }

    /** `truncate_database`: TRUNCATE ... RESTART IDENTITY removes every row and resets the id sequence. */
    method TruncateDatabase()
      modifies this
      ensures Valid() && State() == EmptyTable
    {
      rows := [];
      nextId := 1;
    }

    /**
     * `insert_email`: returns `(inserted, truncated)`. The flags start false and
     * are set as the steps succeed; a raised exception stops the sequence.
     */
    method InsertEmail(keyword: string, email: string, source: string, probe: Probe)
      returns (inserted: bool, truncated: bool)
      requires Valid()
      modifies this
      ensures Valid()
      ensures InsertOutcome(State(), inserted, truncated) ==
              InsertEmailSpec(old(State()), keyword, email, source, probe)
    {
      truncated := false;
      inserted := false;
      if probe.fault == SizeQueryFails {
        return;
      }
      if probe.sizeMilliGb >= MaxDbSizeMilliGb {
        if probe.fault == TruncateFails {
          return;
        }
        TruncateDatabase();
        if probe.fault == TruncateCleanupFails {
          return;
        }
        truncated := true;
      }
      if probe.fault == InsertFails {
        return;
      }
      inserted := ExecuteInsert(keyword, email, source, probe.now, probe.fault != CommitFails);
    }

    /**
     * The INSERT inside its transaction: the sequence value is drawn either way;
     * the staged row is kept only when the transaction commits.
     */
    method ExecuteInsert(keyword: string, email: string, source: string, now: int, commits: bool)
      returns (inserted: bool)
      requires Valid()
      modifies this
      ensures Valid()
      ensures var (staged, returned) := InsertRow(old(State()), keyword, email, source, now);
              inserted == returned && State() == if commits then staged else Table(old(rows), staged.nextId)
    {
      ghost var before := State();
      var staged := rows;
      var id := nextId;
      nextId := nextId + 1;
      inserted := false;
      if email !in EmailsOf(staged) {
        staged := staged + [Row(id, keyword, email, source, now)];
        inserted := true;
      }
      assert (Table(staged, nextId), inserted) == InsertRow(before, keyword, email, source, now);
      if commits {
        rows := staged;
      }
    }
  }

  // ---------------------------------------------------------------------------
  // History query builder (database_pg.py:110-136)
  // ---------------------------------------------------------------------------

  const SelectBase: string := "SELECT * FROM extracted_emails WHERE 1=1"
  const OrderByNewest: string := " ORDER BY created_at DESC"

  /** One active filter of `search_emails`. */
  datatype Filter =
    | KeywordLike(keyword: string)
    | EmailLike(email: string)
    | SourceLike(source: string)
    | CreatedFrom(dateFrom: string)
    | CreatedTo(dateTo: string)

  /** Python truthiness of an optional string argument: present and non-empty. */
  predicate Truthy(v: Option<string>) { v.Some? && v.value != "" }

  /** Position of a filter kind in the order the builder tests them. */
  function Rank(f: Filter): nat
  {
    match f
    case KeywordLike(_) => 0
    case EmailLike(_) => 1
    case SourceLike(_) => 2
    case CreatedFrom(_) => 3
    case CreatedTo(_) => 4
  }

  /** The filter is the one a truthy argument of `search_emails` switches on. */
  predicate FromArguments(f: Filter, keyword: string, email: string, source: string,
                          dateFrom: Option<string>, dateTo: Option<string>)
  {
    match f
    case KeywordLike(v) => v == keyword && v != ""
    case EmailLike(v) => v == email && v != ""
    case SourceLike(v) => v == source && v != ""
    case CreatedFrom(d) => Truthy(dateFrom) && d == dateFrom.value
    case CreatedTo(d) => Truthy(dateTo) && d == dateTo.value
  }

  /** The filters the arguments switch on, in the order the builder tests the arguments. */
  function Filters(keyword: string, email: string, source: string,
                   dateFrom: Option<string>, dateTo: Option<string>): seq<Filter>
  {
    var fs1 := AddIf([], keyword != "", KeywordLike(keyword));
    var fs2 := AddIf(fs1, email != "", EmailLike(email));
    var fs3 := AddIf(fs2, source != "", SourceLike(source));
    var fs4 := AddIf(fs3, Truthy(dateFrom), CreatedFrom(DateArg(dateFrom)));
    AddIf(fs4, Truthy(dateTo), CreatedTo(DateArg(dateTo)))
  }

  /** The string an optional date argument carries, or empty when it is absent. */
  function DateArg(d: Option<string>): string
  {
    if d.Some? then d.value else ""
  }

  /** Appends `f` when `switchedOn` holds. */
  function AddIf(fs: seq<Filter>, switchedOn: bool, f: Filter): seq<Filter>
  {
    if switchedOn then fs + [f] else fs
  }

  /** Filters in strictly increasing rank. */
  ghost predicate RankSorted(fs: seq<Filter>)
  {
    forall i, j :: 0 <= i < j < |fs| ==> Rank(fs[i]) < Rank(fs[j])
  }

  /** Appending a filter that outranks everything present keeps the ranks sorted. */
  lemma AddIfKeepsOrder(fs: seq<Filter>, switchedOn: bool, f: Filter)
    requires RankSorted(fs)
    requires forall g :: g in fs ==> Rank(g) < Rank(f)
    ensures RankSorted(AddIf(fs, switchedOn, f))
    ensures forall g :: g in AddIf(fs, switchedOn, f) ==> Rank(g) <= Rank(f)
    ensures |AddIf(fs, switchedOn, f)| == |fs| + (if switchedOn then 1 else 0)
    ensures forall g :: g in AddIf(fs, switchedOn, f) <==> g in fs || (switchedOn && g == f)
  {
  }

  /** The filters come in the order keyword, email, source, date_from, date_to. */
  lemma FiltersSorted(keyword: string, email: string, source: string,
                      dateFrom: Option<string>, dateTo: Option<string>)
    ensures RankSorted(Filters(keyword, email, source, dateFrom, dateTo))
  {
    var fs1 := AddIf([], keyword != "", KeywordLike(keyword));
    AddIfKeepsOrder([], keyword != "", KeywordLike(keyword));
    var fs2 := AddIf(fs1, email != "", EmailLike(email));
    AddIfKeepsOrder(fs1, email != "", EmailLike(email));
    var fs3 := AddIf(fs2, source != "", SourceLike(source));
    AddIfKeepsOrder(fs2, source != "", SourceLike(source));
    var fs4 := AddIf(fs3, Truthy(dateFrom), CreatedFrom(DateArg(dateFrom)));
    AddIfKeepsOrder(fs3, Truthy(dateFrom), CreatedFrom(DateArg(dateFrom)));
    AddIfKeepsOrder(fs4, Truthy(dateTo), CreatedTo(DateArg(dateTo)));
  }

  /** Every filter is built from the truthy argument of its kind. */
  lemma FiltersFromArguments(keyword: string, email: string, source: string,
                             dateFrom: Option<string>, dateTo: Option<string>)
    ensures forall f :: f in Filters(keyword, email, source, dateFrom, dateTo) ==>
                          FromArguments(f, keyword, email, source, dateFrom, dateTo)
  {
    var fs1 := AddIf([], keyword != "", KeywordLike(keyword));
    var fs2 := AddIf(fs1, email != "", EmailLike(email));
    var fs3 := AddIf(fs2, source != "", SourceLike(source));
    var fs4 := AddIf(fs3, Truthy(dateFrom), CreatedFrom(DateArg(dateFrom)));
    assert forall g :: g in fs1 ==> FromArguments(g, keyword, email, source, dateFrom, dateTo);
    assert forall g :: g in fs2 ==> FromArguments(g, keyword, email, source, dateFrom, dateTo);
    assert forall g :: g in fs3 ==> FromArguments(g, keyword, email, source, dateFrom, dateTo);
    assert forall g :: g in fs4 ==> FromArguments(g, keyword, email, source, dateFrom, dateTo);
  }

  /** Each truthy argument switches on its filter. */
  lemma FiltersCoverArguments(keyword: string, email: string, source: string,
                              dateFrom: Option<string>, dateTo: Option<string>)
    ensures var fs := Filters(keyword, email, source, dateFrom, dateTo);
      && (keyword != "" ==> KeywordLike(keyword) in fs)
      && (email != "" ==> EmailLike(email) in fs)
      && (source != "" ==> SourceLike(source) in fs)
      && (Truthy(dateFrom) ==> CreatedFrom(dateFrom.value) in fs)
      && (Truthy(dateTo) ==> CreatedTo(dateTo.value) in fs)
  {
    var fs1 := AddIf([], keyword != "", KeywordLike(keyword));
    var fs2 := AddIf(fs1, email != "", EmailLike(email));
    var fs3 := AddIf(fs2, source != "", SourceLike(source));
    var fs4 := AddIf(fs3, Truthy(dateFrom), CreatedFrom(DateArg(dateFrom)));
    assert fs1 <= fs2 <= fs3 <= fs4 <= Filters(keyword, email, source, dateFrom, dateTo);
  }

  /** The SQL text of a filter's condition before its placeholder. */
  function ClauseHead(f: Filter): (head: string)
    ensures '%' !in head && head != []
  {
    match f
    case KeywordLike(_) => " AND keyword ILIKE "
    case EmailLike(_) => " AND email ILIKE "
    case SourceLike(_) => " AND source ILIKE "
    case CreatedFrom(_) => " AND created_at::date >= "
    case CreatedTo(_) => " AND created_at::date <= "
  }

  /** The SQL condition a filter appends, ending in its `%s` placeholder. */
  function Clause(f: Filter): string
  {
    ClauseHead(f) + "%s"
  }

  /** The parameter a filter binds: text filters wrapped for substring ILIKE, dates passed as given. */
  function Param(f: Filter): (p: string)
    ensures !f.CreatedFrom? && !f.CreatedTo? ==> |p| >= 2 && p[0] == '%' && p[|p| - 1] == '%'
  {
    match f
    case KeywordLike(v) => "%" + v + "%"
    case EmailLike(v) => "%" + v + "%"
    case SourceLike(v) => "%" + v + "%"
    case CreatedFrom(d) => d
    case CreatedTo(d) => d
  }

  function Clauses(fs: seq<Filter>): string
  {
    if fs == [] then "" else Clauses(fs[..|fs| - 1]) + Clause(fs[|fs| - 1])
  }

  function Params(fs: seq<Filter>): seq<string>
  {
    if fs == [] then [] else Params(fs[..|fs| - 1]) + [Param(fs[|fs| - 1])]
  }

  /** The number of `%s` placeholders in a query string. */
  function Placeholders(s: string): nat
  {
    if |s| < 2 then 0
    else (if s[0] == '%' && s[1] == 's' then 1 else 0) + Placeholders(s[1..])
  }

  /** Placeholders add up across a concatenation whose left part does not end in `%`. */
  lemma {:induction false} PlaceholdersAppend(a: string, b: string)
    requires a == [] || a[|a| - 1] != '%'
    ensures Placeholders(a + b) == Placeholders(a) + Placeholders(b)
    decreases |a|
  {
    if a != [] {
      assert (a + b)[1..] == a[1..] + b;
      if |a| >= 2 {
        PlaceholdersAppend(a[1..], b);
        assert (a + b)[0] == a[0] && (a + b)[1] == a[1];
        assert Placeholders(a + b) == (if a[0] == '%' && a[1] == 's' then 1 else 0) + Placeholders(a[1..] + b);
        assert Placeholders(a) == (if a[0] == '%' && a[1] == 's' then 1 else 0) + Placeholders(a[1..]);
      } else if b != [] {
        assert a[1..] + b == b;
        assert a[0] != '%';
        assert Placeholders(a + b) == 0 + Placeholders(b);
        assert Placeholders(a) == 0;
      } else {
        assert a + b == a;
      }
    } else {
      assert a + b == b;
    }
  }

  /** A string without `%` holds no placeholder. */
  lemma {:induction false} NoPercentNoPlaceholder(s: string)
    requires '%' !in s
    ensures Placeholders(s) == 0
    decreases |s|
  {
    if |s| >= 2 {
      assert '%' !in s[1..];
      NoPercentNoPlaceholder(s[1..]);
    }
  }

  /** Each clause holds exactly one placeholder. */
  lemma ClausePlaceholder(f: Filter)
    ensures Placeholders(Clause(f)) == 1
  {
    var head := ClauseHead(f);
    NoPercentNoPlaceholder(head);
    PlaceholdersAppend(head, "%s");
    assert Placeholders("%s") == 1;
  }

  lemma Extend(fs: seq<Filter>, f: Filter)
    ensures Clauses(fs + [f]) == Clauses(fs) + Clause(f)
    ensures Params(fs + [f]) == Params(fs) + [Param(f)]
  {
    assert (fs + [f])[..|fs|] == fs;
  }

  /** The clauses carry one placeholder per filter and never end in `%`. */
  lemma {:induction false} ClausesPlaceholders(fs: seq<Filter>)
    ensures Placeholders(Clauses(fs)) == |fs|
    ensures Clauses(fs) == [] || Clauses(fs)[|Clauses(fs)| - 1] == 's'
    decreases |fs|
  {
    if fs != [] {
      var init := fs[..|fs| - 1];
      ClausesPlaceholders(init);
      ClausePlaceholder(fs[|fs| - 1]);
      PlaceholdersAppend(Clauses(init), Clause(fs[|fs| - 1]));
    }
  }

  /** A query framed by placeholder-free text holds one placeholder per filter. */
  lemma QueryPlaceholders(head: string, fs: seq<Filter>, tail: string)
    requires '%' !in head && '%' !in tail
    ensures Placeholders(head + Clauses(fs) + tail) == |fs|
  {
    ClausesPlaceholders(fs);
    NoPercentNoPlaceholder(head);
    NoPercentNoPlaceholder(tail);
    assert head == [] || head[|head| - 1] in head;
    PlaceholdersAppend(head, Clauses(fs));
    var front := head + Clauses(fs);
    if Clauses(fs) == [] {
      assert front == head;
    } else {
      assert front[|front| - 1] == Clauses(fs)[|Clauses(fs)| - 1];
    }
    PlaceholdersAppend(front, tail);
  }

  /**
   * `search_emails`' query builder: starting from the `WHERE 1=1` base, each truthy
   * filter appends its clause and its parameter, and the newest-first ordering ends
   * the query. The query is not executed here.
   */
  method SearchEmails(keyword: string, email: string, source: string,
                      dateFrom: Option<string>, dateTo: Option<string>)
    returns (query: string, params: seq<string>)
    ensures query == SelectBase + Clauses(Filters(keyword, email, source, dateFrom, dateTo)) + OrderByNewest
    ensures params == Params(Filters(keyword, email, source, dateFrom, dateTo))
  {
    query := SelectBase;
    params := [];
    query, params := AppendIf(query, params, keyword != "", KeywordLike(keyword));
    query, params := AppendIf(query, params, email != "", EmailLike(email));
    query, params := AppendIf(query, params, source != "", SourceLike(source));
    query, params := AppendIf(query, params, Truthy(dateFrom), CreatedFrom(DateArg(dateFrom)));
    query, params := AppendIf(query, params, Truthy(dateTo), CreatedTo(DateArg(dateTo)));
    Rendered(SelectBase, query, params, keyword, email, source, dateFrom, dateTo);
    query := query + OrderByNewest;
  }

  /**
   * One `if v: query += clause; params.append(param)` step of the builder, as the
   * statements the source runs. Its contract ties it to `Step`, the same step as a
   * function on builder values, over which the lemmas below reason.
   */
  method AppendIf(query: string, params: seq<string>, switchedOn: bool, f: Filter)
    returns (query': string, params': seq<string>)
    ensures Builder(query', params') == Step(Builder(query, params), switchedOn, f)
  {
    query', params' := query, params;
    if switchedOn {
      query' := query' + Clause(f);
      params' := params' + [Param(f)];
    }
  }

  /** The query text and the parameter list built so far. */
  datatype Builder = Builder(query: string, params: seq<string>)

  /** The value `AppendIf` computes: one conditional builder step. */
  function Step(b: Builder, switchedOn: bool, f: Filter): Builder
  {
    if switchedOn then Builder(b.query + Clause(f), b.params + [Param(f)]) else b
  }

  /** The builder holding `head` followed by the clauses of `fs`, and the parameters of `fs`. */
  function Render(head: string, fs: seq<Filter>): Builder
  {
    Builder(head + Clauses(fs), Params(fs))
  }

  lemma StepRenders(head: string, fs: seq<Filter>, switchedOn: bool, f: Filter)
    ensures Step(Render(head, fs), switchedOn, f) == Render(head, AddIf(fs, switchedOn, f))
  {
    if switchedOn {
      ClausesExtend(head, head + Clauses(fs), fs, f);
      Extend(fs, f);
    }
  }

  /**
   * Five builder steps over the argument tests of `search_emails` leave the head
   * followed by the clauses of the switched-on filters, and their parameters.
   */
  lemma Rendered(head: string, query: string, params: seq<string>,
                 keyword: string, email: string, source: string,
                 dateFrom: Option<string>, dateTo: Option<string>)
    requires Builder(query, params) == Step(Step(Step(Step(Step(Builder(head, []),
              keyword != "", KeywordLike(keyword)),
              email != "", EmailLike(email)),
              source != "", SourceLike(source)),
              Truthy(dateFrom), CreatedFrom(DateArg(dateFrom))),
              Truthy(dateTo), CreatedTo(DateArg(dateTo)))
    ensures query == head + Clauses(Filters(keyword, email, source, dateFrom, dateTo))
    ensures params == Params(Filters(keyword, email, source, dateFrom, dateTo))
  {
    var fs3 := AddIf(AddIf(AddIf([], keyword != "", KeywordLike(keyword)),
                           email != "", EmailLike(email)),
                     source != "", SourceLike(source));
    TextSteps(head, keyword, email, source);
    var fs4 := AddIf(fs3, Truthy(dateFrom), CreatedFrom(DateArg(dateFrom)));
    StepRenders(head, fs3, Truthy(dateFrom), CreatedFrom(DateArg(dateFrom)));
    StepRenders(head, fs4, Truthy(dateTo), CreatedTo(DateArg(dateTo)));
  }

  /** The keyword, email and source steps of the builder. */
  lemma TextSteps(head: string, keyword: string, email: string, source: string)
    ensures Step(Step(Step(Builder(head, []),
              keyword != "", KeywordLike(keyword)),
              email != "", EmailLike(email)),
              source != "", SourceLike(source))
            == Render(head, AddIf(AddIf(AddIf([], keyword != "", KeywordLike(keyword)),
                                        email != "", EmailLike(email)),
                                  source != "", SourceLike(source)))
  {
    assert Builder(head, []) == Render(head, []) by {
      assert head + Clauses([]) == head;
    }
    var fs1 := AddIf([], keyword != "", KeywordLike(keyword));
    StepRenders(head, [], keyword != "", KeywordLike(keyword));
    var fs2 := AddIf(fs1, email != "", EmailLike(email));
    StepRenders(head, fs1, email != "", EmailLike(email));
    StepRenders(head, fs2, source != "", SourceLike(source));
  }

  lemma {:induction false} ParamsLength(fs: seq<Filter>)
    ensures |Params(fs)| == |fs|
    decreases |fs|
  {
    if fs != [] {
      ParamsLength(fs[..|fs| - 1]);
    }
  }

  lemma FrameHasNoPercent()
    ensures '%' !in SelectBase && '%' !in OrderByNewest
  {
  }

  lemma Framed(head: string, middle: string, tail: string)
    ensures head <= head + middle + tail
    ensures (head + middle + tail)[|head + middle + tail| - |tail|..] == tail
  {
    assert (head + middle + tail)[..|head|] == head;
  }

  /** A query framed by placeholder-free text starts with its head, ends with its tail and holds one placeholder per filter. */
  lemma Finished(head: string, fs: seq<Filter>, tail: string)
    requires '%' !in head && '%' !in tail
    ensures var query := head + Clauses(fs) + tail;
      && head <= query
      && |query| >= |tail| && query[|query| - |tail|..] == tail
      && Placeholders(query) == |fs|
  {
    QueryPlaceholders(head, fs, tail);
    Framed(head, Clauses(fs), tail);
  }

  /**
   * The query `search_emails` builds from any set of filters starts with the
   * `WHERE 1=1` base, ends with the newest-first ordering, and binds exactly as
   * many parameters as it holds `%s` placeholders.
   */
  lemma QueryShape(fs: seq<Filter>)
    ensures var query := SelectBase + Clauses(fs) + OrderByNewest;
      && SelectBase <= query
      && |query| >= |OrderByNewest| && query[|query| - |OrderByNewest|..] == OrderByNewest
      && Placeholders(query) == |Params(fs)| == |fs|
  {
    FrameHasNoPercent();
    Finished(SelectBase, fs, OrderByNewest);
    ParamsLength(fs);
  }

  /** The parameters of a conditionally appended filter. */
  lemma ParamsAddIf(fs: seq<Filter>, switchedOn: bool, f: Filter)
    ensures Params(AddIf(fs, switchedOn, f)) == Params(fs) + (if switchedOn then [Param(f)] else [])
  {
    if switchedOn {
      Extend(fs, f);
    } else {
      assert Params(fs) + [] == Params(fs);
    }
  }

  /**
   * The parameter list of `search_emails`, in closed form: keyword, email and
   * source wrapped in `%` for substring ILIKE matching, then the dates as given,
   * each present exactly when its argument is truthy.
   */
  lemma SearchParams(keyword: string, email: string, source: string,
                     dateFrom: Option<string>, dateTo: Option<string>)
    ensures Params(Filters(keyword, email, source, dateFrom, dateTo))
            == (if keyword != "" then ["%" + keyword + "%"] else [])
               + (if email != "" then ["%" + email + "%"] else [])
               + (if source != "" then ["%" + source + "%"] else [])
               + (if Truthy(dateFrom) then [dateFrom.value] else [])
               + (if Truthy(dateTo) then [dateTo.value] else [])
  {
    var fs3 := AddIf(AddIf(AddIf([], keyword != "", KeywordLike(keyword)), email != "", EmailLike(email)),
                     source != "", SourceLike(source));
    var fs4 := AddIf(fs3, Truthy(dateFrom), CreatedFrom(DateArg(dateFrom)));
    var text := (if keyword != "" then ["%" + keyword + "%"] else [])
                + (if email != "" then ["%" + email + "%"] else [])
                + (if source != "" then ["%" + source + "%"] else []);
    var p4 := if Truthy(dateFrom) then [dateFrom.value] else [];
    var p5 := if Truthy(dateTo) then [dateTo.value] else [];
    TextParams(keyword, email, source);
    ParamsAfter(fs3, Truthy(dateFrom), CreatedFrom(DateArg(dateFrom)), text, p4);
    ParamsAfter(fs4, Truthy(dateTo), CreatedTo(DateArg(dateTo)), text + p4, p5);
  }

  /** The keyword, email and source parameters, each wrapped in `%` when its argument is non-empty. */
  lemma TextParams(keyword: string, email: string, source: string)
    ensures Params(AddIf(AddIf(AddIf([], keyword != "", KeywordLike(keyword)), email != "", EmailLike(email)),
                         source != "", SourceLike(source)))
            == (if keyword != "" then ["%" + keyword + "%"] else [])
               + (if email != "" then ["%" + email + "%"] else [])
               + (if source != "" then ["%" + source + "%"] else [])
  {
    var p1 := if keyword != "" then ["%" + keyword + "%"] else [];
    var p2 := if email != "" then ["%" + email + "%"] else [];
    var fs1 := AddIf([], keyword != "", KeywordLike(keyword));
    var fs2 := AddIf(fs1, email != "", EmailLike(email));
    ParamsAddIf([], keyword != "", KeywordLike(keyword));
    assert Params(fs1) == p1;
    ParamsAfter(fs1, email != "", EmailLike(email), p1, p2);
    ParamsAfter(fs2, source != "", SourceLike(source), p1 + p2, if source != "" then ["%" + source + "%"] else []);
  }

  /** One step of the closed form above: the parameters so far, then the new filter's. */
  lemma ParamsAfter(fs: seq<Filter>, switchedOn: bool, f: Filter, sofar: seq<string>, added: seq<string>)
    requires Params(fs) == sofar
    requires added == if switchedOn then [Param(f)] else []
    ensures Params(AddIf(fs, switchedOn, f)) == sofar + added
  {
    ParamsAddIf(fs, switchedOn, f);
  }

  lemma ClausesExtend(head: string, query: string, fs: seq<Filter>, f: Filter)
    requires query == head + Clauses(fs)
    ensures query + Clause(f) == head + Clauses(fs + [f])
  {
    Extend(fs, f);
    ConcatAssoc(head, Clauses(fs), Clause(f));
  }

  lemma ConcatAssoc(a: string, b: string, c: string)
    ensures (a + b) + c == a + (b + c)
  {
  }
}
