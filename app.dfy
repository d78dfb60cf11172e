/**
 * The batch extraction behind app.py's Extract page. The uploaded sheet's
 * `keyword` column is reduced to its distinct non-null entries. Each keyword is
 * searched and scraped. Every scraped contact that has both an e-mail and a
 * source URL is offered to the store. The rows the store reports as newly
 * inserted are collected for display.
 */
module App {
  import opened Wrappers
  import S = ScraperEmail
  import D = DatabasePg

  // ---------------------------------------------------------------------------
  // The keyword column (app.py:59-60, 68)
  // ---------------------------------------------------------------------------

  /** The first position of `x` in `s`, or `|s|` when `x` does not occur. */
  function IndexOf<T(==)>(s: seq<T>, x: T): (i: nat)
    ensures i <= |s|
    ensures i < |s| ==> s[i] == x
    ensures forall j :: 0 <= j < i ==> s[j] != x
  {
    if s == [] then 0
    else if s[0] == x then 0
    else
      var rest := IndexOf(s[1..], x);
      assert forall j :: 1 <= j <= rest ==> s[j] == s[1..][j - 1];
      1 + rest
  }

  /** Appending leaves the first position of an element already present unchanged. */
  lemma IndexOfExtend<T>(s: seq<T>, y: T, x: T)
    requires x in s
    ensures IndexOf(s + [y], x) == IndexOf(s, x)
  {
    var a := IndexOf(s, x);
    var b := IndexOf(s + [y], x);
    var p :| 0 <= p < |s| && s[p] == x;
    assert a <= p;
    assert (s + [y])[a] == x;
  }

  /** A new last element is found at the end. */
  lemma IndexOfNew<T>(s: seq<T>, x: T)
    requires x !in s
    ensures IndexOf(s + [x], x) == |s|
  {
    var b := IndexOf(s + [x], x);
    assert (s + [x])[|s|] == x;
  }

  /**
   * `df["keyword"].dropna().unique().tolist()`: the non-null cells, each value
   * once. A `None` cell is a missing value (NaN in the sheet).
   */
  function DistinctKeywords(cells: seq<Option<string>>): (keywords: seq<string>)
    ensures forall i, j :: 0 <= i < j < |keywords| ==> keywords[i] != keywords[j]
    ensures forall k :: k in keywords <==> Some(k) in cells
    decreases |cells|
  {
    if cells == [] then []
    else
      var seen := DistinctKeywords(cells[..|cells| - 1]);
      var last := cells[|cells| - 1];
      assert cells == cells[..|cells| - 1] + [last];
      if last.Some? && last.value !in seen then seen + [last.value] else seen
  }

  /** The keywords keep the order in which each first occurs in the column. */
  lemma {:induction false} KeywordsInFirstOccurrenceOrder(cells: seq<Option<string>>)
    ensures forall i, j :: 0 <= i < j < |DistinctKeywords(cells)| ==>
      IndexOf(cells, Some(DistinctKeywords(cells)[i])) < IndexOf(cells, Some(DistinctKeywords(cells)[j]))
    decreases |cells|
  {
    if cells != [] {
      var init := cells[..|cells| - 1];
      var last := cells[|cells| - 1];
      assert cells == init + [last];
      KeywordsInFirstOccurrenceOrder(init);
      forall i, j | 0 <= i < j < |DistinctKeywords(cells)|
        ensures IndexOf(cells, Some(DistinctKeywords(cells)[i])) < IndexOf(cells, Some(DistinctKeywords(cells)[j]))
      {
        OrderedPair(init, last, i, j);
      }
    }
  }

  /** One step of the induction above: a pair of keywords of `init + [last]`. */
  lemma OrderedPair(init: seq<Option<string>>, last: Option<string>, i: nat, j: nat)
    requires forall a, b :: 0 <= a < b < |DistinctKeywords(init)| ==>
      IndexOf(init, Some(DistinctKeywords(init)[a])) < IndexOf(init, Some(DistinctKeywords(init)[b]))
    requires i < j < |DistinctKeywords(init + [last])|
    ensures IndexOf(init + [last], Some(DistinctKeywords(init + [last])[i]))
      < IndexOf(init + [last], Some(DistinctKeywords(init + [last])[j]))
  {
    var cells := init + [last];
    assert cells[..|cells| - 1] == init;
    var seen := DistinctKeywords(init);
    var keywords := DistinctKeywords(cells);
    assert keywords[i] == seen[i] && Some(seen[i]) in init;
    IndexOfExtend(init, last, Some(seen[i]));
    if j < |seen| {
      assert keywords[j] == seen[j] && Some(seen[j]) in init;
      IndexOfExtend(init, last, Some(seen[j]));
    } else {
      assert keywords == seen + [last.value] && keywords[j] == last.value;
      IndexOfNew(init, last);
    }
  }

  // ---------------------------------------------------------------------------
  // One run of the extraction loop, as a function of what the searches return
  // and of the conditions each insert meets (app.py:66-113)
  // ---------------------------------------------------------------------------

  /** One entry of `all_results`. */
  datatype ResultRow = ResultRow(keyword: string, email: string, website: string, source: string,
                                 linkedin: Option<string>, facebook: Option<string>)

  /** The store's table, the rows collected so far, and the number of `insert_email` calls made. */
  datatype Run = Run(table: D.Table, results: seq<ResultRow>, calls: nat)

  /** The item passes `if not email or not source: continue`. */
  predicate Eligible(item: S.Contact)
  {
    item.email != "" && item.sourceUrl != ""
  }

  /** The row collected for an item of a keyword. */
  function RowFor(keyword: string, item: S.Contact): ResultRow
  {
    ResultRow(keyword, item.email, item.website, item.sourceUrl, item.linkedin, item.facebook)
  }

  /**
   * The store's answer to the item's insert. The `n`-th call of a run meets the
   * database size and faults `probe(n)`.
   */
  function Outcome(run: Run, keyword: string, item: S.Contact, probe: nat -> D.Probe): D.InsertOutcome
  {
    D.InsertEmailSpec(run.table, keyword, item.email, item.sourceUrl, probe(run.calls))
  }

  /** One pass through the body of the loop over a keyword's items. */
  function ItemStep(run: Run, keyword: string, item: S.Contact, probe: nat -> D.Probe): Run
  {
    if !Eligible(item) then run
    else
      var o := Outcome(run, keyword, item, probe);
      Run(o.table, if o.inserted then run.results + [RowFor(keyword, item)] else run.results, run.calls + 1)
  }

  /** The loop over one keyword's items. */
  function RunItems(run: Run, keyword: string, items: seq<S.Contact>, probe: nat -> D.Probe): Run
    decreases |items|
  {
    if items == [] then run
    else ItemStep(RunItems(run, keyword, items[..|items| - 1], probe), keyword, items[|items| - 1], probe)
  }

  /** The loop over the keywords; `extracted[i]` is what the search for `keywords[i]` returned. */
  function RunKeywords(run: Run, keywords: seq<string>, extracted: seq<seq<S.Contact>>,
                       probe: nat -> D.Probe): Run
    requires |extracted| == |keywords|
    decreases |keywords|
  {
    if keywords == [] then run
    else
      var n := |keywords| - 1;
      RunItems(RunKeywords(run, keywords[..n], extracted[..n], probe), keywords[n], extracted[n], probe)
  }

  /**
   * An item without an e-mail or a source URL changes nothing and makes no call.
   * Otherwise the store is called once, and a row is collected exactly when the
   * store reports the e-mail as inserted.
   */
  lemma RowCollectedIffInserted(run: Run, keyword: string, item: S.Contact, probe: nat -> D.Probe)
    ensures var next := ItemStep(run, keyword, item, probe);
      && (!Eligible(item) ==> next == run)
      && (Eligible(item) ==> next.calls == run.calls + 1 && next.table == Outcome(run, keyword, item, probe).table)
      && (next.results == run.results + [RowFor(keyword, item)] <==>
            Eligible(item) && Outcome(run, keyword, item, probe).inserted)
      && (next.results == run.results <==>
            !(Eligible(item) && Outcome(run, keyword, item, probe).inserted))
  {
  }

  /** The eligible items, in order. */
  function EligibleItems(items: seq<S.Contact>): seq<S.Contact>
    decreases |items|
  {
    if items == [] then []
    else
      var init := EligibleItems(items[..|items| - 1]);
      if Eligible(items[|items| - 1]) then init + [items[|items| - 1]] else init
  }

  /** `insert_email` is called once per eligible item and never for the others. */
  lemma {:induction false} OneCallPerEligibleItem(run: Run, keyword: string, items: seq<S.Contact>,
                                                   probe: nat -> D.Probe)
    ensures RunItems(run, keyword, items, probe).calls == run.calls + |EligibleItems(items)|
    decreases |items|
  {
    if items != [] {
      OneCallPerEligibleItem(run, keyword, items[..|items| - 1], probe);
    }
  }

  /** The rows that would be collected if every item were eligible and inserted. */
  function RowsFor(keyword: string, items: seq<S.Contact>): seq<ResultRow>
  {
    seq(|items|, j requires 0 <= j < |items| => RowFor(keyword, items[j]))
  }

  /** `a` is `b` with some elements left out and the others in their order. */
  ghost predicate Subsequence<T>(a: seq<T>, b: seq<T>)
    decreases |b|
  {
    if a == [] then true
    else if b == [] then false
    else if a[|a| - 1] == b[|b| - 1] then Subsequence(a[..|a| - 1], b[..|b| - 1])
    else Subsequence(a, b[..|b| - 1])
  }

  lemma {:induction false} SubsequenceDropLast<T>(a: seq<T>, b: seq<T>)
    requires a != [] && Subsequence(a, b)
    ensures Subsequence(a[..|a| - 1], b)
    decreases |b|
  {
    var a' := a[..|a| - 1];
    var b' := b[..|b| - 1];
    if a' != [] {
      if a[|a| - 1] == b[|b| - 1] {
        if a'[|a'| - 1] == b[|b| - 1] {
          SubsequenceDropLast(a', b');
        }
      } else {
        SubsequenceDropLast(a, b');
        if a'[|a'| - 1] == b[|b| - 1] {
          SubsequenceDropLast(a', b');
        }
      }
    }
  }

  lemma SubsequenceExtend<T>(a: seq<T>, b: seq<T>, x: T)
    requires Subsequence(a, b)
    ensures Subsequence(a, b + [x])
    ensures Subsequence(a + [x], b + [x])
  {
    assert (b + [x])[..|b|] == b;
    assert (a + [x])[..|a|] == a;
    if a != [] && a[|a| - 1] == x {
      SubsequenceDropLast(a, b);
    }
  }

  /**
   * The loop over a keyword's items keeps the rows collected before it, and the
   * rows it adds carry the keyword and follow the order of the items.
   */
  lemma {:induction false} ItemRowsInOrder(run: Run, keyword: string, items: seq<S.Contact>,
                                           probe: nat -> D.Probe)
    ensures var next := RunItems(run, keyword, items, probe);
      && run.results <= next.results
      && (forall p :: |run.results| <= p < |next.results| ==> next.results[p].keyword == keyword)
      && Subsequence(next.results[|run.results|..], RowsFor(keyword, items))
    decreases |items|
  {
    if items != [] {
      var init := items[..|items| - 1];
      var last := items[|items| - 1];
      ItemRowsInOrder(run, keyword, init, probe);
      assert RowsFor(keyword, items) == RowsFor(keyword, init) + [RowFor(keyword, last)];
      var mid := RunItems(run, keyword, init, probe);
      RowCollectedIffInserted(mid, keyword, last, probe);
      RowsInOrderStep(run, mid, ItemStep(mid, keyword, last, probe), keyword, RowsFor(keyword, init),
                      RowFor(keyword, last));
    }
  }

  /**
   * One step of the induction above: a step that collects nothing or the row `row`
   * keeps the rows in the order of `rows + [row]`.
   */
  lemma RowsInOrderStep(run: Run, mid: Run, next: Run, keyword: string, rows: seq<ResultRow>,
                        row: ResultRow)
    requires run.results <= mid.results
    requires forall p :: |run.results| <= p < |mid.results| ==> mid.results[p].keyword == keyword
    requires Subsequence(mid.results[|run.results|..], rows)
    requires row.keyword == keyword
    requires next.results == mid.results || next.results == mid.results + [row]
    ensures run.results <= next.results
    ensures forall p :: |run.results| <= p < |next.results| ==> next.results[p].keyword == keyword
    ensures Subsequence(next.results[|run.results|..], rows + [row])
  {
    var added := mid.results[|run.results|..];
    SubsequenceExtend(added, rows, row);
    if next.results != mid.results {
      assert next.results[|run.results|..] == added + [row];
    }
  }

  /**
   * `all_results` follows the keyword order: the loop keeps the rows collected
   * before it, and every row it adds carries a keyword of the list, at a position
   * no earlier than that of the row before it.
   */
  lemma {:induction false} ResultsInKeywordOrder(run: Run, keywords: seq<string>,
                                                 extracted: seq<seq<S.Contact>>, probe: nat -> D.Probe)
    requires |extracted| == |keywords|
    requires forall i, j :: 0 <= i < j < |keywords| ==> keywords[i] != keywords[j]
    ensures var final := RunKeywords(run, keywords, extracted, probe);
      && run.results <= final.results
      && (forall p :: |run.results| <= p < |final.results| ==> final.results[p].keyword in keywords)
      && (forall p, q :: |run.results| <= p < q < |final.results| ==>
            IndexOf(keywords, final.results[p].keyword) <= IndexOf(keywords, final.results[q].keyword))
    decreases |keywords|
  {
    if keywords != [] {
      var n := |keywords| - 1;
      var ks := keywords[..n];
      assert keywords == ks + [keywords[n]];
      ResultsInKeywordOrder(run, ks, extracted[..n], probe);
      var mid := RunKeywords(run, ks, extracted[..n], probe);
      var final := RunItems(mid, keywords[n], extracted[n], probe);
      ItemRowsInOrder(mid, keywords[n], extracted[n], probe);
      assert keywords[n] !in ks;
      IndexOfNew(ks, keywords[n]);
      forall p | |run.results| <= p < |mid.results|
        ensures final.results[p] == mid.results[p]
        ensures IndexOf(keywords, final.results[p].keyword) == IndexOf(ks, mid.results[p].keyword) < n
      {
        IndexOfExtend(ks, keywords[n], mid.results[p].keyword);
      }
    }
  }

  // ---------------------------------------------------------------------------
  // Runs without truncation and without failed commits
  // ---------------------------------------------------------------------------

  /** An insert call that finds the database under the ceiling and whose commit succeeds. */
  predicate CleanCall(probe: D.Probe)
  {
    probe.sizeMilliGb < D.MaxDbSizeMilliGb && probe.fault != D.CommitFails
  }

  /**
   * Since `init`: the table is valid and has only grown; the collected e-mails are
   * distinct, stored, and were not stored at the start.
   */
  ghost predicate CleanSince(init: D.Table, run: Run)
  {
    && D.TableValid(run.table)
    && init.rows <= run.table.rows
    && (forall p, q :: 0 <= p < q < |run.results| ==> run.results[p].email != run.results[q].email)
    && (forall p :: 0 <= p < |run.results| ==>
          run.results[p].email in D.EmailsOf(run.table.rows) && run.results[p].email !in D.EmailsOf(init.rows))
  }

  lemma EmailsOfPrefix(a: seq<D.Row>, b: seq<D.Row>, x: string)
    requires a <= b && x in D.EmailsOf(a)
    ensures x in D.EmailsOf(b)
  {
    var i :| 0 <= i < |a| && D.EmailsOf(a)[i] == x;
    assert D.EmailsOf(b)[i] == x;
  }

  lemma CleanStep(init: D.Table, run: Run, keyword: string, item: S.Contact, probe: nat -> D.Probe)
    requires CleanSince(init, run)
    requires Eligible(item) ==> CleanCall(probe(run.calls))
    ensures CleanSince(init, ItemStep(run, keyword, item, probe))
  {
    if Eligible(item) {
      var t := run.table;
      var o := Outcome(run, keyword, item, probe);
      var next := ItemStep(run, keyword, item, probe);
      assert !o.truncated;
      assert t.rows <= o.table.rows;
      forall p | 0 <= p < |run.results|
        ensures run.results[p].email in D.EmailsOf(o.table.rows)
      {
        EmailsOfPrefix(t.rows, o.table.rows, run.results[p].email);
      }
      if o.inserted {
        assert item.email !in D.EmailsOf(t.rows);
        assert item.email in D.EmailsOf(o.table.rows);
        if item.email in D.EmailsOf(init.rows) {
          EmailsOfPrefix(init.rows, t.rows, item.email);
        }
        assert next.results == run.results + [RowFor(keyword, item)];
      }
    }
  }

  lemma {:induction false} CleanItems(init: D.Table, run: Run, keyword: string, items: seq<S.Contact>,
                                      probe: nat -> D.Probe)
    requires CleanSince(init, run)
    requires forall n :: run.calls <= n < RunItems(run, keyword, items, probe).calls ==> CleanCall(probe(n))
    ensures CleanSince(init, RunItems(run, keyword, items, probe))
    decreases |items|
  {
    if items != [] {
      var init' := items[..|items| - 1];
      var mid := RunItems(run, keyword, init', probe);
      OneCallPerEligibleItem(run, keyword, init', probe);
      assert RunItems(run, keyword, items, probe).calls >= mid.calls;
      CleanItems(init, run, keyword, init', probe);
      CleanStep(init, mid, keyword, items[|items| - 1], probe);
    }
  }

  lemma {:induction false} CleanKeywords(init: D.Table, run: Run, keywords: seq<string>,
                                         extracted: seq<seq<S.Contact>>, probe: nat -> D.Probe)
    requires |extracted| == |keywords|
    requires CleanSince(init, run)
    requires forall n :: run.calls <= n < RunKeywords(run, keywords, extracted, probe).calls ==> CleanCall(probe(n))
    ensures CleanSince(init, RunKeywords(run, keywords, extracted, probe))
    decreases |keywords|
  {
    if keywords != [] {
      var n := |keywords| - 1;
      var mid := RunKeywords(run, keywords[..n], extracted[..n], probe);
      OneCallPerEligibleItem(mid, keywords[n], extracted[n], probe);
      CallsGrow(run, keywords[..n], extracted[..n], probe);
      CleanKeywords(init, run, keywords[..n], extracted[..n], probe);
      CleanItems(init, mid, keywords[n], extracted[n], probe);
    }
  }

  lemma {:induction false} CallsGrow(run: Run, keywords: seq<string>, extracted: seq<seq<S.Contact>>,
                                     probe: nat -> D.Probe)
    requires |extracted| == |keywords|
    ensures RunKeywords(run, keywords, extracted, probe).calls >= run.calls
    decreases |keywords|
  {
    if keywords != [] {
      var n := |keywords| - 1;
      CallsGrow(run, keywords[..n], extracted[..n], probe);
      OneCallPerEligibleItem(RunKeywords(run, keywords[..n], extracted[..n], probe), keywords[n], extracted[n], probe);
    }
  }

  /**
   * When no insert of the run meets a database at the ceiling or a failed commit,
   * `all_results` holds no e-mail twice, and every e-mail it holds is stored at the
   * end and was not stored at the start.
   */
  lemma NoDuplicatesInCleanRun(table: D.Table, keywords: seq<string>, extracted: seq<seq<S.Contact>>,
                               probe: nat -> D.Probe)
    requires |extracted| == |keywords|
    requires D.TableValid(table)
    requires forall n :: 0 <= n < RunKeywords(Run(table, [], 0), keywords, extracted, probe).calls ==>
               CleanCall(probe(n))
    ensures var final := RunKeywords(Run(table, [], 0), keywords, extracted, probe);
      && (forall p, q :: 0 <= p < q < |final.results| ==> final.results[p].email != final.results[q].email)
      && (forall p :: 0 <= p < |final.results| ==>
            final.results[p].email in D.EmailsOf(final.table.rows) &&
            final.results[p].email !in D.EmailsOf(table.rows))
  {
    CleanKeywords(table, Run(table, [], 0), keywords, extracted, probe);
  }

  // ---------------------------------------------------------------------------
  // The extraction loop itself (app.py:59-113)
  // ---------------------------------------------------------------------------

  /**
   * The Start Email Extraction action. `column` is the sheet's `keyword` column,
   * `None` when the sheet has none. `backend(q)` is what the search backend returns
   * for the query `q`, and the `n`-th insert call meets `probe(n)`. `progress`
   * counts the keywords done.
   */
  method ExtractEmails(store: D.Store, column: Option<seq<Option<string>>>,
                       backend: string -> seq<S.SearchHit>, probe: nat -> D.Probe)
    returns (started: bool, results: seq<ResultRow>, progress: nat,
             ghost keywords: seq<string>, ghost extracted: seq<seq<S.Contact>>)
    requires store.Valid()
    modifies store
    ensures store.Valid()
    ensures started <==> column.Some?
    ensures !started ==> results == [] && progress == 0 && store.State() == old(store.State())
    ensures started ==> keywords == DistinctKeywords(column.value) && progress == |keywords|
    ensures |extracted| == |keywords|
    ensures forall i :: 0 <= i < |keywords| ==>
              S.IsExtraction(backend(S.SearchQuery(keywords[i])), extracted[i])
    ensures var final := RunKeywords(Run(old(store.State()), [], 0), keywords, extracted, probe);
            store.State() == final.table && results == final.results
  {
    results := [];
    progress := 0;
    keywords := [];
    extracted := [];
    if column.None? {
      started := false;
      return;
    }
    started := true;
    var ks := DistinctKeywords(column.value);
    keywords := ks;
    ghost var start := Run(store.State(), [], 0);
    var calls: nat := 0;
    for i := 0 to |ks|
      invariant store.Valid()
      invariant progress == i && |extracted| == i
      invariant forall j :: 0 <= j < i ==> S.IsExtraction(backend(S.SearchQuery(ks[j])), extracted[j])
      invariant RunKeywords(start, ks[..i], extracted, probe) == Run(store.State(), results, calls)
    {
      var items;
      items, results, calls := ProcessKeyword(store, ks[i], backend, probe, results, calls);
      RunKeywordsSnoc(start, ks, i, extracted, items, probe);
      extracted := extracted + [items];
      progress := progress + 1;
    }
    assert ks[..|ks|] == ks;
  }

  /**
   * One pass of the keyword loop: the search for the keyword, then, unless it found
   * nothing, the loop over its items.
   */
  method ProcessKeyword(store: D.Store, keyword: string, backend: string -> seq<S.SearchHit>,
                        probe: nat -> D.Probe, results: seq<ResultRow>, calls: nat)
    returns (items: seq<S.Contact>, results': seq<ResultRow>, calls': nat)
    requires store.Valid()
    modifies store
    ensures store.Valid()
    ensures S.IsExtraction(backend(S.SearchQuery(keyword)), items)
    ensures RunItems(Run(old(store.State()), results, calls), keyword, items, probe)
              == Run(store.State(), results', calls')
  {
    items := S.SearchAndExtractEmails(backend(S.SearchQuery(keyword)));
    if |items| == 0 {
      return items, results, calls;
    }
    results', calls' := InsertItems(store, keyword, items, probe, results, calls);
  }

  /** The keyword loop after one more keyword: its items run after the earlier keywords. */
  lemma RunKeywordsSnoc(start: Run, ks: seq<string>, i: nat, extracted: seq<seq<S.Contact>>,
                        items: seq<S.Contact>, probe: nat -> D.Probe)
    requires i < |ks| && |extracted| == i
    ensures RunKeywords(start, ks[..i + 1], extracted + [items], probe)
              == RunItems(RunKeywords(start, ks[..i], extracted, probe), ks[i], items, probe)
  {
    assert ks[..i + 1][..i] == ks[..i];
    assert (extracted + [items])[..i] == extracted;
  }

  /**
   * The loop over one keyword's items: each item with an e-mail and a source URL
   * is offered to the store, and the row is collected when the store inserted it.
   * `calls` counts the calls to the store so far.
   */
  method InsertItems(store: D.Store, keyword: string, items: seq<S.Contact>, probe: nat -> D.Probe,
                     results: seq<ResultRow>, calls: nat)
    returns (results': seq<ResultRow>, calls': nat)
    requires store.Valid()
    modifies store
    ensures store.Valid()
    ensures RunItems(Run(old(store.State()), results, calls), keyword, items, probe)
              == Run(store.State(), results', calls')
  {
    ghost var before := Run(store.State(), results, calls);
    results', calls' := results, calls;
    for j := 0 to |items|
      invariant store.Valid()
      invariant RunItems(before, keyword, items[..j], probe) == Run(store.State(), results', calls')
    {
      assert items[..j + 1][..j] == items[..j];
      var item := items[j];
      if item.email == "" || item.sourceUrl == "" {
        continue;
      }
      var inserted, truncated := store.InsertEmail(keyword, item.email, item.sourceUrl, probe(calls'));
      calls' := calls' + 1;
      if inserted {
        results' := results' + [RowFor(keyword, item)];
      }
    }
    assert items[..|items|] == items;
  }
}
