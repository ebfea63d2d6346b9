/**
 * The two functions together: the documents the aggregator stores are what
 * the calculator's query counts.  For every date, the pairs the query sees
 * in the stored documents are exactly the pairs the buckets of that UTC day
 * listed, in bucket order, so the count for a day is the number of distinct
 * visitors of that day.  The calculator's answer to an accepted request lists
 * those counts day by day, latest first.
 */
module Pipeline {
  import opened Wrappers
  import opened VisitorDocument
  import opened Aggregator
  import opened DatabaseConnector
  import Calculator

  /** The pairs of the buckets whose date is `date`, in bucket order. */
  function PairsOn(buckets: seq<Bucket>, date: string): seq<Pair>
    decreases |buckets|
  {
    if buckets == [] then []
    else
      var b := buckets[0];
      (if BucketDate(b) == Ok(date) && b.uniqueVisitors.Some? then b.uniqueVisitors.value else [])
      + PairsOn(buckets[1..], date)
  }

  /** The pairs of the entries dated `date`, in order. */
  function EntryPairsOn(entries: seq<Entry>, date: string): seq<Pair>
    decreases |entries|
  {
    if entries == [] then []
    else (if entries[0].date == date then [entries[0].visitor] else []) + EntryPairsOn(entries[1..], date)
  }

  lemma {:induction false} EntryPairsOnAppend(a: seq<Entry>, b: seq<Entry>, date: string)
    ensures EntryPairsOn(a + b, date) == EntryPairsOn(a, date) + EntryPairsOn(b, date)
    decreases |a|
  {
    if a != [] {
      assert (a + b)[0] == a[0] && (a + b)[1..] == a[1..] + b;
      EntryPairsOnAppend(a[1..], b, date);
      var head := if a[0].date == date then [a[0].visitor] else [];
      assert head + (EntryPairsOn(a[1..], date) + EntryPairsOn(b, date))
          == (head + EntryPairsOn(a[1..], date)) + EntryPairsOn(b, date);
    } else {
      assert a + b == b;
    }
  }

  /** The entries of one bucket hold its pairs, in order, under its date and no other. */
  lemma {:induction false} BucketEntriesPairs(bucketDate: string, pairs: seq<Pair>, date: string)
    ensures EntryPairsOn(BucketEntries(bucketDate, pairs), date) == if bucketDate == date then pairs else []
    decreases |pairs|
  {
    if pairs != [] {
      var entries := BucketEntries(bucketDate, pairs);
      assert entries[0] == Entry(bucketDate, pairs[0]);
      assert entries[1..] == BucketEntries(bucketDate, pairs[1..]);
      BucketEntriesPairs(bucketDate, pairs[1..], date);
      if bucketDate == date {
        assert [pairs[0]] + pairs[1..] == pairs;
      }
    }
  }

  /** The fan-out dated `date` holds exactly the pairs of the buckets of that date, in bucket order. */
  lemma {:induction false} FanoutPairs(buckets: seq<Bucket>, date: string)
    requires Fanout(buckets).Ok?
    ensures EntryPairsOn(Fanout(buckets).value, date) == PairsOn(buckets, date)
    decreases |buckets|
  {
    if buckets != [] {
      FanoutStep(buckets);
      var b := buckets[0];
      EntryPairsOnAppend(BucketEntries(BucketDate(b).value, b.uniqueVisitors.value), Fanout(buckets[1..]).value, date);
      BucketEntriesPairs(BucketDate(b).value, b.uniqueVisitors.value, date);
      FanoutPairs(buckets[1..], date);
    }
  }

  /** The query reads from a visitor document exactly its own pair, and only on its date. */
  lemma DocumentVisitorsOfMade(id: string, docDate: string, p: Pair, date: string)
    ensures DocumentVisitors(MakeDocument(id, docDate, p), date) == if docDate == date then [p] else []
  {
    DocumentFields(id, docDate, p);
  }

  lemma VisitorsOnSingle(doc: Document, date: string)
    ensures VisitorsOn([doc], date) == DocumentVisitors(doc, date)
  {
    assert [doc][1..] == [];
    assert VisitorsOn([doc], date) == DocumentVisitors(doc, date) + VisitorsOn([], date);
  }

  /** The query sees in the documents of some entries exactly the pairs of the entries of that date. */
  lemma {:induction false} DocumentsVisitors(entries: seq<Entry>, mintId: nat -> string, base: nat, date: string)
    ensures VisitorsOn(Documents(entries, mintId, base), date) == EntryPairsOn(entries, date)
    decreases |entries|
  {
    if entries != [] {
      var entry := entries[0];
      var doc := MakeDocument(mintId(base), entry.date, entry.visitor);
      var rest := Documents(entries[1..], mintId, base + 1);
      assert [entry] + entries[1..] == entries;
      DocumentsAppend([entry], entries[1..], mintId, base);
      DocumentsSingle(entry, mintId, base);
      VisitorsOnAppend([doc], rest, date);
      VisitorsOnSingle(doc, date);
      DocumentVisitorsOfMade(mintId(base), entry.date, entry.visitor, date);
      DocumentsVisitors(entries[1..], mintId, base + 1, date);
    }
  }

  /** What the query sees for a date in the stored output is what the buckets of that date listed. */
  lemma StoredVisitors(buckets: seq<Bucket>, mintId: nat -> string, date: string)
    requires Transformed(buckets, mintId).Ok?
    ensures VisitorsOn(Transformed(buckets, mintId).value, date) == PairsOn(buckets, date)
  {
    DocumentsVisitors(Fanout(buckets).value, mintId, 0, date);
    FanoutPairs(buckets, date);
  }

  /**
   * The aggregator's output, stored and queried for a day, counts the
   * distinct visitor keys of that day's buckets; when no address holds a ',',
   * that is the number of distinct (user agent, client address) pairs.
   */
  lemma DailyUniqueVisitors(buckets: seq<Bucket>, mintId: nat -> string, date: string)
    requires Transformed(buckets, mintId).Ok?
    ensures DistinctCount(Transformed(buckets, mintId).value, date) == |KeysOf(PairsOn(buckets, date))|
    ensures var pairs := PairsOn(buckets, date);
            (forall i :: 0 <= i < |pairs| ==> ',' !in pairs[i].clientIp) ==>
              DistinctCount(Transformed(buckets, mintId).value, date) == |set i | 0 <= i < |pairs| :: pairs[i]|
  {
    StoredVisitors(buckets, mintId, date);
    var pairs := PairsOn(buckets, date);
    if forall i :: 0 <= i < |pairs| ==> ',' !in pairs[i].clientIp {
      KeysOfCommaFree(pairs);
    }
  }

  /**
   * The calculator's answer to an accepted request (calculator.py lines 29
   * to 32): the dict `get_unique_visitors` builds lists the requested days
   * in the order of the date list, from `to_date` down to `from_date`, each
   * with its distinct count.
   */
  lemma ResponseFollowsDateList(fromDate: string, toDate: string, now: Calculator.Instant, store: seq<Document>)
    requires Calculator.ValidInstant(now)
    requires Calculator.DateList(fromDate, toDate, now).Ok?
    ensures var dates := Calculator.DateList(fromDate, toDate, now).value;
            var keys := KeysInOrder(ReportEntries(store, dates));
            && keys == dates
            && keys[0] == toDate
            && keys[|keys| - 1] == fromDate
            && AsMap(ReportEntries(store, dates)) == Report(store, dates)
  {
    var dates := Calculator.DateList(fromDate, toDate, now).value;
    Calculator.DateListDistinct(fromDate, toDate, now);
    Calculator.DateListEnds(fromDate, toDate, now);
    FirstOccurrencesOfDistinct(dates);
    ReportEntriesKeys(store, dates);
    ReportEntriesAsMap(store, dates);
  }
}
