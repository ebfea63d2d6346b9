/**
 * The per-date report of the unique-visitor calculator
 * (`azure_function_unique_visitor_calculator/database_connector.py`).  The
 * Cosmos DB container is an in-memory sequence of stored visitor documents,
 * and the query of lines 51 to 55 is a function of that sequence: the number
 * of distinct strings `user agent + "," + client address` among the visitor
 * pairs of the documents whose "date" field equals the requested date.
 */
module DatabaseConnector {
  import opened VisitorDocument

  /** The visitor pairs one document contributes to the query for `date`. */
  function DocumentVisitors(doc: Document, date: string): seq<Pair> {
    if DateKey in doc && doc[DateKey] == Text(date) && VisitorKey in doc && doc[VisitorKey].PairList?
    then doc[VisitorKey].pairs
    else []
  }

  /** `FROM c JOIN val IN c.unique_visitor_value WHERE c.date = @logline_date`. */
  function VisitorsOn(store: seq<Document>, date: string): seq<Pair>
    decreases |store|
  {
    if store == [] then [] else DocumentVisitors(store[0], date) + VisitorsOn(store[1..], date)
  }

  /** `CONCAT(val[0], ',', val[1])`. */
  function ConcatKey(p: Pair): string {
    p.userAgent + "," + p.clientIp
  }

  /** The keys of a sequence of pairs, each once (`SELECT DISTINCT`). */
  function KeysOf(pairs: seq<Pair>): set<string>
    decreases |pairs|
  {
    if pairs == [] then {} else {ConcatKey(pairs[0])} + KeysOf(pairs[1..])
  }

  /** The number the query counts for `date` (`SELECT VALUE COUNT(1)`). */
  function DistinctCount(store: seq<Document>, date: string): nat {
    |KeysOf(VisitorsOn(store, date))|
  }

  /** The rows the query returns: none when no pair is stored for the date. */
  function QueryRows(store: seq<Document>, date: string): seq<int> {
    if VisitorsOn(store, date) == [] then [] else [DistinctCount(store, date)]
  }

  /** The report for a list of dates: every date, with its distinct count. */
  function Report(store: seq<Document>, dates: seq<string>): map<string, int> {
    map d | d in dates :: DistinctCount(store, d)
  }

  /**
   * A Python dict as it stands: its (key, value) entries in insertion order,
   * each key once.
   */
  type Entries = seq<(string, int)>

  /** The keys of a dict, in the order `json.dumps` writes them. */
  function KeysInOrder(entries: Entries): (keys: seq<string>)
    ensures |keys| == |entries|
  {
    seq(|entries|, i requires 0 <= i < |entries| => entries[i].0)
  }

  /** What the dict maps each key to. */
  function AsMap(entries: Entries): map<string, int>
    decreases |entries|
  {
    if entries == [] then map[] else AsMap(entries[1..])[entries[0].0 := entries[0].1]
  }

  /**
   * `d[k] = v`: an existing key keeps its place and takes the new value; a
   * new key goes at the end.
   */
  function Put(entries: Entries, k: string, v: int): Entries
    decreases |entries|
  {
    if entries == [] then [(k, v)]
    else if entries[0].0 == k then [(k, v)] + entries[1..]
    else [entries[0]] + Put(entries[1..], k, v)
  }

  /** Each date once, at its first occurrence, in request order. */
  function FirstOccurrences(dates: seq<string>): seq<string>
    decreases |dates|
  {
    if dates == [] then []
    else
      var earlier := FirstOccurrences(dates[..|dates| - 1]);
      if dates[|dates| - 1] in earlier then earlier else earlier + [dates[|dates| - 1]]
  }

  /** The dict `get_unique_visitors` builds: each date in turn set to its distinct count. */
  function ReportEntries(store: seq<Document>, dates: seq<string>): Entries
    decreases |dates|
  {
    if dates == [] then []
    else
      var d := dates[|dates| - 1];
      Put(ReportEntries(store, dates[..|dates| - 1]), d, DistinctCount(store, d))
  }

  /**
   * `get_unique_visitors` (lines 38 to 72): one query per date, 0 when it
   * returns no row, otherwise the first row's value.  The store is only read.
   * The dict holds every requested date once, in the order first requested,
   * each with its distinct count.
   */
  method GetUniqueVisitors(store: seq<Document>, loglineDateList: seq<string>) returns (response: Entries)
    ensures response == ReportEntries(store, loglineDateList)
    ensures KeysInOrder(response) == FirstOccurrences(loglineDateList)
    ensures AsMap(response) == Report(store, loglineDateList)
  {
    response := [];
    for i := 0 to |loglineDateList|
      invariant response == ReportEntries(store, loglineDateList[..i])
    {
      var loglineDate := loglineDateList[i];
      var totalVisitors := QueryRows(store, loglineDate);
      if |totalVisitors| > 0 {
        response := Put(response, loglineDate, totalVisitors[0]);
      } else {
        response := Put(response, loglineDate, 0);
      }
      QueryRowsValue(store, loglineDate);
      assert loglineDateList[..i + 1][..i] == loglineDateList[..i];
    }
    assert loglineDateList[..|loglineDateList|] == loglineDateList;
    ReportEntriesKeys(store, loglineDateList);
    ReportEntriesAsMap(store, loglineDateList);
  }

  /** Setting a key changes that key's value and no other. */
  lemma {:induction false} PutAsMap(entries: Entries, k: string, v: int)
    ensures AsMap(Put(entries, k, v)) == AsMap(entries)[k := v]
    decreases |entries|
  {
    if entries != [] && entries[0].0 != k {
      var rest := entries[1..];
      assert ([entries[0]] + Put(rest, k, v))[1..] == Put(rest, k, v);
      PutAsMap(rest, k, v);
    } else if entries != [] {
      assert ([(k, v)] + entries[1..])[1..] == entries[1..];
    }
  }

  /** Setting a key already present keeps the key order; a new key is appended. */
  lemma {:induction false} PutKeys(entries: Entries, k: string, v: int)
    ensures KeysInOrder(Put(entries, k, v))
            == if k in KeysInOrder(entries) then KeysInOrder(entries) else KeysInOrder(entries) + [k]
    decreases |entries|
  {
    if entries != [] {
      var rest := entries[1..];
      var keys := KeysInOrder(entries);
      assert keys == [entries[0].0] + KeysInOrder(rest);
      if entries[0].0 == k {
        assert KeysInOrder([(k, v)] + rest) == [k] + KeysInOrder(rest);
      } else {
        PutKeys(rest, k, v);
        assert KeysInOrder([entries[0]] + Put(rest, k, v)) == [entries[0].0] + KeysInOrder(Put(rest, k, v));
        assert k in keys <==> k in KeysInOrder(rest);
      }
    }
  }

  /** The dict's keys are the requested dates, each once, in the order first requested. */
  lemma {:induction false} ReportEntriesKeys(store: seq<Document>, dates: seq<string>)
    ensures KeysInOrder(ReportEntries(store, dates)) == FirstOccurrences(dates)
    decreases |dates|
  {
    if dates != [] {
      var d := dates[|dates| - 1];
      var earlier := dates[..|dates| - 1];
      ReportEntriesKeys(store, earlier);
      PutKeys(ReportEntries(store, earlier), d, DistinctCount(store, d));
    }
  }

  /** Looked up by key, the dict is the report of every requested date. */
  lemma {:induction false} ReportEntriesAsMap(store: seq<Document>, dates: seq<string>)
    ensures AsMap(ReportEntries(store, dates)) == Report(store, dates)
    decreases |dates|
  {
    if dates != [] {
      var n := |dates| - 1;
      var d := dates[n];
      var earlier := dates[..n];
      ReportEntriesAsMap(store, earlier);
      PutAsMap(ReportEntries(store, earlier), d, DistinctCount(store, d));
      ReportStep(store, dates, n);
      assert dates[..n + 1] == dates;
    }
  }

  /** Each requested date appears once among the first occurrences, and nothing else does. */
  lemma {:induction false} FirstOccurrencesMembers(dates: seq<string>)
    ensures forall d :: d in FirstOccurrences(dates) <==> d in dates
    ensures forall i, j :: 0 <= i < j < |FirstOccurrences(dates)| ==> FirstOccurrences(dates)[i] != FirstOccurrences(dates)[j]
    decreases |dates|
  {
    if dates != [] {
      var earlier := dates[..|dates| - 1];
      FirstOccurrencesMembers(earlier);
      assert dates == earlier + [dates[|dates| - 1]];
    }
  }

  /** A list that names no date twice keeps its own order: the dict's keys are the list itself. */
  lemma {:induction false} FirstOccurrencesOfDistinct(dates: seq<string>)
    requires forall i, j :: 0 <= i < j < |dates| ==> dates[i] != dates[j]
    ensures FirstOccurrences(dates) == dates
    decreases |dates|
  {
    if dates != [] {
      var n := |dates| - 1;
      var earlier := dates[..n];
      FirstOccurrencesOfDistinct(earlier);
      assert dates[n] !in earlier by {
        forall i | 0 <= i < n ensures earlier[i] != dates[n] {
          assert earlier[i] == dates[i];
        }
      }
      assert earlier + [dates[n]] == dates;
    }
  }

  /** Reporting one more date adds that date with its count. */
  lemma ReportStep(store: seq<Document>, dates: seq<string>, i: int)
    requires 0 <= i < |dates|
    ensures Report(store, dates[..i + 1]) == Report(store, dates[..i])[dates[i] := DistinctCount(store, dates[i])]
  {
    assert dates[..i + 1] == dates[..i] + [dates[i]];
  }

  // ---------------------------------------------------------------------------
  // The query
  // ---------------------------------------------------------------------------

  /** A key is in KeysOf exactly when some pair of the sequence has it. */
  lemma {:induction false} KeysOfMembers(pairs: seq<Pair>, k: string)
    ensures k in KeysOf(pairs) <==> exists i :: 0 <= i < |pairs| && ConcatKey(pairs[i]) == k
    decreases |pairs|
  {
    if pairs != [] {
      KeysOfMembers(pairs[1..], k);
      if exists i :: 0 <= i < |pairs| && ConcatKey(pairs[i]) == k {
        var i :| 0 <= i < |pairs| && ConcatKey(pairs[i]) == k;
        if i > 0 {
          assert pairs[1..][i - 1] == pairs[i];
        }
      }
      if exists i :: 0 <= i < |pairs[1..]| && ConcatKey(pairs[1..][i]) == k {
        var i :| 0 <= i < |pairs[1..]| && ConcatKey(pairs[1..][i]) == k;
        assert pairs[i + 1] == pairs[1..][i];
      }
    }
  }

  lemma {:induction false} KeysOfAppend(a: seq<Pair>, b: seq<Pair>)
    ensures KeysOf(a + b) == KeysOf(a) + KeysOf(b)
    decreases |a|
  {
    if a != [] {
      assert (a + b)[1..] == a[1..] + b;
      KeysOfAppend(a[1..], b);
    } else {
      assert a + b == b;
    }
  }

  /** Distinct keys are never more than the pairs they come from, and none only without pairs. */
  lemma {:induction false} KeysOfSize(pairs: seq<Pair>)
    ensures |KeysOf(pairs)| <= |pairs|
    ensures |KeysOf(pairs)| == 0 <==> pairs == []
    decreases |pairs|
  {
    if pairs != [] {
      KeysOfSize(pairs[1..]);
    }
  }

  lemma {:induction false} VisitorsOnAppend(a: seq<Document>, b: seq<Document>, date: string)
    ensures VisitorsOn(a + b, date) == VisitorsOn(a, date) + VisitorsOn(b, date)
    decreases |a|
  {
    if a != [] {
      assert (a + b)[1..] == a[1..] + b;
      VisitorsOnAppend(a[1..], b, date);
    } else {
      assert a + b == b;
    }
  }

  /**
   * The query returns a row exactly when some pair is stored for the date, and
   * the value the report takes from it (or 0 without a row) is the distinct count.
   */
  lemma QueryRowsValue(store: seq<Document>, date: string)
    ensures |QueryRows(store, date)| <= 1
    ensures QueryRows(store, date) == [] <==> VisitorsOn(store, date) == []
    ensures (if QueryRows(store, date) == [] then 0 else QueryRows(store, date)[0]) == DistinctCount(store, date)
  {
    KeysOfSize(VisitorsOn(store, date));
  }

  /** The count is at most the number of pairs stored for the date, and positive exactly when there is one. */
  lemma DistinctCountBounds(store: seq<Document>, date: string)
    ensures DistinctCount(store, date) <= |VisitorsOn(store, date)|
    ensures DistinctCount(store, date) > 0 <==> VisitorsOn(store, date) != []
  {
    KeysOfSize(VisitorsOn(store, date));
  }

  /** A document of another date changes no count. */
  lemma OtherDatesIgnored(store: seq<Document>, doc: Document, date: string)
    requires DateKey !in doc || doc[DateKey] != Text(date)
    ensures DistinctCount(store + [doc], date) == DistinctCount(store, date)
  {
    VisitorsOnAppend(store, [doc], date);
    assert VisitorsOn(store + [doc], date) == VisitorsOn(store, date);
  }

  /** Storing one more document adds its pairs for the date at the end. */
  lemma VisitorsOnAppendOne(store: seq<Document>, doc: Document, date: string)
    ensures VisitorsOn(store + [doc], date) == VisitorsOn(store, date) + DocumentVisitors(doc, date)
  {
    VisitorsOnAppend(store, [doc], date);
    assert [doc][1..] == [];
    assert VisitorsOn([doc], date) == DocumentVisitors(doc, date) + VisitorsOn([], date);
  }

  /** A pair whose key is already among the keys adds no key. */
  lemma KeysOfAppendKnown(pairs: seq<Pair>, p: Pair)
    requires p in pairs
    ensures KeysOf(pairs + [p]) == KeysOf(pairs)
  {
    var key := ConcatKey(p);
    assert key in KeysOf(pairs) by {
      var i :| 0 <= i < |pairs| && pairs[i] == p;
      assert ConcatKey(pairs[i]) == key;
      KeysOfMembers(pairs, key);
    }
    KeysOfAppend(pairs, [p]);
    assert KeysOf([p]) == {key} + KeysOf([]);
  }

  /**
   * Storing a second document with a pair already stored for that date counts
   * once, whatever its identifier or partition key.
   */
  lemma DuplicateCountsOnce(store: seq<Document>, doc: Document, date: string, p: Pair)
    requires DateKey in doc && doc[DateKey] == Text(date)
    requires VisitorKey in doc && doc[VisitorKey] == PairList([p])
    requires p in VisitorsOn(store, date)
    ensures DistinctCount(store + [doc], date) == DistinctCount(store, date)
  {
    VisitorsOnAppendOne(store, doc, date);
    assert DocumentVisitors(doc, date) == [p];
    KeysOfAppendKnown(VisitorsOn(store, date), p);
  }

  /** The ',' just before the address of `p` lies inside the address of `q` when that is longer. */
  lemma CommaSeparatesKey(p: Pair, q: Pair)
    requires ConcatKey(p) == ConcatKey(q) && |p.clientIp| < |q.clientIp|
    ensures ',' in q.clientIp
  {
    var k := ConcatKey(p);
    var i := |q.clientIp| - |p.clientIp| - 1;
    assert k[|k| - |p.clientIp| - 1] == ',';
    assert q.clientIp[i] == ConcatKey(q)[|k| - |p.clientIp| - 1];
  }

  /** With no ',' in the client address, the key determines the pair. */
  lemma ConcatKeyInjective(p: Pair, q: Pair)
    requires ',' !in p.clientIp && ',' !in q.clientIp
    requires ConcatKey(p) == ConcatKey(q)
    ensures p == q
  {
    var k := ConcatKey(p);
    assert k == ConcatKey(q);
    if |p.clientIp| < |q.clientIp| {
      CommaSeparatesKey(p, q);
    } else if |q.clientIp| < |p.clientIp| {
      CommaSeparatesKey(q, p);
    }
    assert p.clientIp == k[|k| - |p.clientIp|..] == q.clientIp;
    assert p.userAgent == k[..|p.userAgent|] == q.userAgent;
  }

  /** A ',' in a user agent merges two different visitors when the address holds one too. */
  lemma CommaInAddressMerges()
    ensures ConcatKey(Pair("a,b", "c")) == ConcatKey(Pair("a", "b,c"))
    ensures KeysOf([Pair("a,b", "c"), Pair("a", "b,c")]) == {"a,b,c"}
  {
    var pairs := [Pair("a,b", "c"), Pair("a", "b,c")];
    assert ConcatKey(pairs[0]) == "a,b,c" == ConcatKey(pairs[1]);
    assert pairs[1..][1..] == [];
    assert KeysOf(pairs[1..]) == {ConcatKey(pairs[1])} + KeysOf([]);
  }

  /**
   * When no client address holds a ',', the count is the number of distinct
   * (user agent, client address) pairs.
   */
  lemma {:induction false} KeysOfCommaFree(pairs: seq<Pair>)
    requires forall i :: 0 <= i < |pairs| ==> ',' !in pairs[i].clientIp
    ensures |KeysOf(pairs)| == |set i | 0 <= i < |pairs| :: pairs[i]|
    decreases |pairs|
  {
    if pairs != [] {
      var rest := pairs[1..];
      KeysOfCommaFree(rest);
      var pairsSet := set i | 0 <= i < |pairs| :: pairs[i];
      var restSet := set i | 0 <= i < |rest| :: rest[i];
      assert pairsSet == {pairs[0]} + restSet by {
        forall x | x in pairsSet ensures x in {pairs[0]} + restSet {
          var i :| 0 <= i < |pairs| && pairs[i] == x;
          if i > 0 {
            assert rest[i - 1] == x;
          }
        }
        forall x | x in restSet ensures x in pairsSet {
          var i :| 0 <= i < |rest| && rest[i] == x;
          assert pairs[i + 1] == x;
        }
      }
      KeysOfMembers(rest, ConcatKey(pairs[0]));
      assert KeysOf(pairs) == {ConcatKey(pairs[0])} + KeysOf(rest);
      if ConcatKey(pairs[0]) in KeysOf(rest) {
        var i :| 0 <= i < |rest| && ConcatKey(rest[i]) == ConcatKey(pairs[0]);
        assert rest[i] == pairs[i + 1];
        ConcatKeyInjective(rest[i], pairs[0]);
        assert pairs[0] in restSet;
        assert KeysOf(pairs) == KeysOf(rest) && pairsSet == restSet;
      } else {
        if pairs[0] in restSet {
          assert false;
        }
        assert |KeysOf(pairs)| == |KeysOf(rest)| + 1;
        assert |pairsSet| == |restSet| + 1;
      }
    }
  }

  /** The count for a date, when no stored address holds a ',', is the number of distinct pairs stored for it. */
  lemma DistinctCountIsDistinctPairs(store: seq<Document>, date: string)
    requires forall i :: 0 <= i < |VisitorsOn(store, date)| ==> ',' !in VisitorsOn(store, date)[i].clientIp
    ensures var pairs := VisitorsOn(store, date);
            DistinctCount(store, date) == |set i | 0 <= i < |pairs| :: pairs[i]|
  {
    KeysOfCommaFree(VisitorsOn(store, date));
  }

  // ---------------------------------------------------------------------------
  // The report
  // ---------------------------------------------------------------------------

  /** The report has exactly the requested dates as keys, each with its own count. */
  lemma ReportContents(store: seq<Document>, dates: seq<string>)
    ensures Report(store, dates).Keys == set i | 0 <= i < |dates| :: dates[i]
    ensures forall d :: d in Report(store, dates) ==> Report(store, dates)[d] == DistinctCount(store, d)
  {
    var report := Report(store, dates);
    forall d | d in report ensures d in set i | 0 <= i < |dates| :: dates[i] {
      var i :| 0 <= i < |dates| && dates[i] == d;
    }
  }

  /** Each date's value depends only on the store and that date: order and repetition do not matter. */
  lemma ReportIgnoresOrderAndRepeats(store: seq<Document>, dates: seq<string>, others: seq<string>)
    requires forall d :: d in dates <==> d in others
    ensures Report(store, dates) == Report(store, others)
  {
  }

  lemma ReportRepeatedDate(store: seq<Document>, dates: seq<string>, d: string)
    requires d in dates
    ensures Report(store, dates + [d]) == Report(store, dates)
  {
    ReportIgnoresOrderAndRepeats(store, dates + [d], dates);
  }
}
