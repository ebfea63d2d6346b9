/**
 * The ingest-side transform of `azure_function_aggregator/aggregator.py`:
 * every aggregation bucket of N (user agent, client address) pairs becomes N
 * visitor documents whose partition key is "<date>_<last octet>", and a
 * copying pass then strips the raw visitor-list key from every document.
 */
module Aggregator {
  import opened Wrappers
  import opened CivilDate
  import opened IsoDate
  import opened VisitorDocument

  /**
   * One aggregation bucket as the upstream job hands it over: a Python dict
   * whose "start_timestamp" and "unique_visitors_value" keys may be absent.
   */
  datatype Bucket = Bucket(startTimestamp: Option<int>, uniqueVisitors: Option<seq<Pair>>)

  /** Why the transform raises instead of returning documents. */
  datatype TransformError =
    | MissingTimestamp      // fromtimestamp(None): TypeError
    | TimestampOutOfRange   // fromtimestamp of an instant outside years 1..9999
    | MissingVisitors       // iterating over None: TypeError

  const SecondsPerDay := 86400

  /** Ordinal of 1970-01-01, the day Unix time starts. */
  const EpochOrdinal := 719163

  /** First second, in Unix time, of the UTC day `d`. */
  function EpochSeconds(d: Date): int
    requires Valid(d)
  {
    (Ordinal(d) - EpochOrdinal) * SecondsPerDay
  }

  /** The ISO date of the UTC day holding instant `ts` (whole seconds since 1970). */
  function LoglineDate(ts: int): Result<string, TransformError> {
    var ordinal := ts / SecondsPerDay + EpochOrdinal;
    if 1 <= ordinal <= MaxOrdinal then
      FromOrdinalCorrect(ordinal);
      Ok(Format(FromOrdinal(ordinal)))
    else Err(TimestampOutOfRange)
  }

  /** The date every document of bucket `b` carries. */
  function BucketDate(b: Bucket): Result<string, TransformError> {
    match b.startTimestamp
    case None => Err(MissingTimestamp)
    case Some(ts) => LoglineDate(ts)
  }

  lemma EpochIsNewYear1970()
    ensures Valid(Date(1970, 1, 1)) && Ordinal(Date(1970, 1, 1)) == EpochOrdinal
  {
  }

  /** The whole days before `ts` cover it up to less than one more day. */
  lemma InstantInDay(ts: int)
    ensures (ts / SecondsPerDay) * SecondsPerDay <= ts < (ts / SecondsPerDay + 1) * SecondsPerDay
  {
  }

  /** The instant's day number is a valid one exactly when the instant lies in years 1 to 9999. */
  lemma InstantDayInRange(ts: int)
    ensures 1 <= ts / SecondsPerDay + EpochOrdinal <= MaxOrdinal
            <==> (1 - EpochOrdinal) * SecondsPerDay <= ts < (MaxOrdinal - EpochOrdinal + 1) * SecondsPerDay
  {
    var q := ts / SecondsPerDay;
    InstantInDay(ts);
    if q < 1 - EpochOrdinal {
      assert (q + 1) * SecondsPerDay <= (1 - EpochOrdinal) * SecondsPerDay;
    }
    if q > MaxOrdinal - EpochOrdinal {
      assert q * SecondsPerDay >= (MaxOrdinal - EpochOrdinal + 1) * SecondsPerDay;
    }
  }

  /** An accepted instant's date text reads back as the day number it was written from. */
  lemma LoglineDateParses(ts: int)
    requires LoglineDate(ts).Ok?
    ensures Parse(LoglineDate(ts).value).Some?
    ensures Ordinal(Parse(LoglineDate(ts).value).value) == ts / SecondsPerDay + EpochOrdinal
  {
    var ordinal := ts / SecondsPerDay + EpochOrdinal;
    assert 1 <= ordinal <= MaxOrdinal;
    FromOrdinalCorrect(ordinal);
    var d := FromOrdinal(ordinal);
    assert LoglineDate(ts).value == Format(d);
    ParseFormat(d);
  }

  /**
   * A bucket's date is the UTC calendar day that contains its start instant,
   * written as YYYY-MM-DD; instants outside years 1 to 9999 are refused.
   */
  lemma LoglineDateIsUtcDay(ts: int)
    ensures LoglineDate(ts).Ok? <==> EpochSeconds(Date(1, 1, 1)) <= ts < EpochSeconds(MaxDate) + SecondsPerDay
    ensures LoglineDate(ts).Ok? ==>
              var d := Parse(LoglineDate(ts).value);
              d.Some? && EpochSeconds(d.value) <= ts < EpochSeconds(d.value) + SecondsPerDay
  {
    InstantInDay(ts);
    InstantDayInRange(ts);
    assert EpochSeconds(Date(1, 1, 1)) == (1 - EpochOrdinal) * SecondsPerDay;
    MaxDateIsLast(MaxDate);
    assert EpochSeconds(MaxDate) == (MaxOrdinal - EpochOrdinal) * SecondsPerDay;
    if LoglineDate(ts).Ok? {
      LoglineDateParses(ts);
    }
  }

  /** `s.split(sep)`: the pieces of `s` between occurrences of `sep`; never empty. */
  function Split(s: string, sep: char): (parts: seq<string>)
    ensures |parts| >= 1
    decreases |s|
  {
    if s == [] then [[]]
    else
      var init := Split(s[..|s| - 1], sep);
      var c := s[|s| - 1];
      if c == sep then init + [[]]
      else init[..|init| - 1] + [init[|init| - 1] + [c]]
  }

  /** No piece of a split holds the separator. */
  lemma {:induction false} SplitPiecesLackSeparator(s: string, sep: char)
    ensures forall i :: 0 <= i < |Split(s, sep)| ==> sep !in Split(s, sep)[i]
    decreases |s|
  {
    if s != [] {
      var init := Split(s[..|s| - 1], sep);
      SplitPiecesLackSeparator(s[..|s| - 1], sep);
      var c := s[|s| - 1];
      var parts := Split(s, sep);
      forall i | 0 <= i < |parts| ensures sep !in parts[i] {
        if i < |init| - 1 || (c == sep && i < |init|) {
          assert parts[i] == init[i];
        } else if c != sep {
          assert parts[i] == init[|init| - 1] + [c];
        }
      }
    }
  }

  /** Joining the pieces of a split with the separator gives the string back. */
  lemma {:induction false} SplitJoinsBack(s: string, sep: char)
    ensures Join(Split(s, sep), sep) == s
    decreases |s|
  {
    if s != [] {
      var front := s[..|s| - 1];
      var init := Split(front, sep);
      SplitJoinsBack(front, sep);
      var c := s[|s| - 1];
      assert s == front + [c];
      var parts := Split(s, sep);
      if c == sep {
        assert parts[..|parts| - 1] == init;
        assert Join(parts, sep) == Join(init, sep) + [sep] + [];
        assert Join(parts, sep) == Join(init, sep) + [c];
      } else if |init| == 1 {
        assert Join(parts, sep) == init[0] + [c];
      } else {
        var last := init[|init| - 1];
        assert parts[..|parts| - 1] == init[..|init| - 1];
        assert Join(init, sep) == Join(init[..|init| - 1], sep) + [sep] + last;
        assert Join(parts, sep) == Join(init[..|init| - 1], sep) + [sep] + (last + [c]);
        assert Join(parts, sep) == Join(init, sep) + [c];
      }
      assert Join(parts, sep) == front + [c];
    }
  }

  /** No piece of a split holds the separator, and joining the pieces gives the string back. */
  lemma SplitJoin(s: string, sep: char)
    ensures forall i :: 0 <= i < |Split(s, sep)| ==> sep !in Split(s, sep)[i]
    ensures Join(Split(s, sep), sep) == s
  {
    SplitPiecesLackSeparator(s, sep);
    SplitJoinsBack(s, sep);
  }

  /** `sep.join(parts)`. */
  function Join(parts: seq<string>, sep: char): string
    requires |parts| >= 1
  {
    if |parts| == 1 then parts[0]
    else Join(parts[..|parts| - 1], sep) + [sep] + parts[|parts| - 1]
  }

  /** Where the '.'-free run of `s` that ends at position `i` starts. */
  function SegmentStart(s: string, i: nat): (k: nat)
    requires i <= |s|
    ensures k <= i
  {
    if i == 0 || s[i - 1] == '.' then i else SegmentStart(s, i - 1)
  }

  /** `client_ip.split('.')[-1]`: the text after the last '.'. */
  function LastOctet(ip: string): string {
    ip[SegmentStart(ip, |ip|)..]
  }

  /** `o` is the longest suffix of `ip` that holds no '.'. */
  predicate IsLastSegment(ip: string, o: string) {
    && '.' !in o
    && |o| <= |ip|
    && ip[|ip| - |o|..] == o
    && (|o| == |ip| || ip[|ip| - |o| - 1] == '.')
  }

  /** The run from SegmentStart(s, i) to i is '.'-free and starts the string or follows a '.'. */
  lemma {:induction false} SegmentStartBounds(s: string, i: nat)
    requires i <= |s|
    ensures var k := SegmentStart(s, i);
            '.' !in s[k..i] && (k == 0 || s[k - 1] == '.')
    decreases i
  {
    if i > 0 && s[i - 1] != '.' {
      SegmentStartBounds(s, i - 1);
      var k := SegmentStart(s, i - 1);
      assert s[k..i] == s[k..i - 1] + [s[i - 1]];
    }
  }

  /**
   * The last octet is the text after the last '.', or the whole address when
   * it holds no '.'; it always exists, and nothing else qualifies.
   */
  lemma LastOctetIsLastSegment(ip: string, o: string)
    ensures IsLastSegment(ip, o) <==> o == LastOctet(ip)
  {
    SegmentStartBounds(ip, |ip|);
    assert IsLastSegment(ip, LastOctet(ip));
    if IsLastSegment(ip, o) {
      LastSegmentUnique(ip, o, LastOctet(ip));
    }
  }

  /** The last octet is the last piece of `split('.')`, as the source computes it. */
  lemma LastOctetIsLastPiece(ip: string)
    ensures LastOctet(ip) == Split(ip, '.')[|Split(ip, '.')| - 1]
  {
    var parts := Split(ip, '.');
    var last := parts[|parts| - 1];
    SplitJoin(ip, '.');
    if |parts| > 1 {
      var prefix := Join(parts[..|parts| - 1], '.');
      assert ip == prefix + ['.'] + last;
      assert ip[|ip| - |last|..] == last;
    }
    assert IsLastSegment(ip, last);
    LastOctetIsLastSegment(ip, last);
  }

  lemma LastSegmentUnique(ip: string, o: string, o': string)
    requires IsLastSegment(ip, o) && IsLastSegment(ip, o')
    ensures o == o'
  {
  }

  lemma LastOctetOfDottedQuad()
    ensures LastOctet("192.168.1.42") == "42"
    ensures LastOctet("::1") == "::1"
  {
    LastOctetIsLastSegment("192.168.1.42", "42");
    LastOctetIsLastSegment("::1", "::1");
  }

  /** The document built for one visitor pair (lines 37 to 45). */
  function MakeDocument(id: string, date: string, visitor: Pair): Document {
    var lastOctet := LastOctet(visitor.clientIp);
    map[IdKey := Text(id),
        PartitionKeyKey := Text(date + "_" + lastOctet),
        DateKey := Text(date),
        LastOctetKey := Text(lastOctet),
        VisitorKey := PairList([visitor])]
  }

  /**
   * A visitor document has exactly five keys; its partition key is its date
   * and its last octet joined by '_', the last octet is the address's last
   * '.'-segment, and it holds its own pair as a one-element list.
   */
  lemma DocumentFields(id: string, date: string, visitor: Pair)
    ensures var doc := MakeDocument(id, date, visitor);
      && doc.Keys == {IdKey, PartitionKeyKey, DateKey, LastOctetKey, VisitorKey}
      && RawVisitorsKey !in doc
      && doc[IdKey] == Text(id)
      && doc[DateKey] == Text(date)
      && IsLastSegment(visitor.clientIp, doc[LastOctetKey].text)
      && doc[PartitionKeyKey] == Text(doc[DateKey].text + "_" + doc[LastOctetKey].text)
      && doc[VisitorKey] == PairList([visitor])
  {
    LastOctetIsLastSegment(visitor.clientIp, LastOctet(visitor.clientIp));
  }

  /** A bucket the transform can turn into documents. */
  predicate WellFormed(b: Bucket) {
    BucketDate(b).Ok? && b.uniqueVisitors.Some?
  }

  /**
   * The error the transform raises on a bucket that is not well formed: the
   * timestamp is converted (line 33) before the visitor list is iterated (line 35).
   */
  function BucketError(b: Bucket): TransformError
    requires !WellFormed(b)
  {
    if BucketDate(b).Err? then BucketDate(b).error else MissingVisitors
  }

  /** Number of visitor pairs a bucket lists (none when the list is absent). */
  function PairCount(b: Bucket): nat {
    match b.uniqueVisitors
    case None => 0
    case Some(pairs) => |pairs|
  }

  function TotalPairs(buckets: seq<Bucket>): nat
    decreases |buckets|
  {
    if buckets == [] then 0 else PairCount(buckets[0]) + TotalPairs(buckets[1..])
  }

  // ---------------------------------------------------------------------------
  // The fan-out: one entry per (bucket, pair), before identifiers are drawn
  // ---------------------------------------------------------------------------

  /** One visitor of one bucket: the bucket's date and the pair. */
  datatype Entry = Entry(date: string, visitor: Pair)

  /** The entries of one bucket: its date with each of its pairs, in order. */
  function BucketEntries(date: string, pairs: seq<Pair>): (entries: seq<Entry>)
    ensures |entries| == |pairs|
  {
    seq(|pairs|, j requires 0 <= j < |pairs| => Entry(date, pairs[j]))
  }

  /** The entries `entries` followed by the outcome `rest` of the remaining buckets. */
  function Prepend(entries: seq<Entry>, rest: Result<seq<Entry>, TransformError>): Result<seq<Entry>, TransformError> {
    match rest
    case Err(e) => Err(e)
    case Ok(more) => Ok(entries + more)
  }

  /**
   * Every bucket's entries in bucket order, or the error of the first bucket
   * that is not well formed.
   */
  function Fanout(buckets: seq<Bucket>): Result<seq<Entry>, TransformError>
    decreases |buckets|
  {
    if buckets == [] then Ok([])
    else if !WellFormed(buckets[0]) then Err(BucketError(buckets[0]))
    else Prepend(BucketEntries(BucketDate(buckets[0]).value, buckets[0].uniqueVisitors.value), Fanout(buckets[1..]))
  }

  /** The documents of `entries`, the k-th with identifier mintId(base + k). */
  function Documents(entries: seq<Entry>, mintId: nat -> string, base: nat): (docs: seq<Document>)
    ensures |docs| == |entries|
  {
    seq(|entries|, k requires 0 <= k < |entries| => MakeDocument(mintId(base + k), entries[k].date, entries[k].visitor))
  }

  lemma DocumentsSingle(entry: Entry, mintId: nat -> string, base: nat)
    ensures Documents([entry], mintId, base) == [MakeDocument(mintId(base), entry.date, entry.visitor)]
  {
    var docs := Documents([entry], mintId, base);
    assert [entry][0] == entry && base + 0 == base;
    assert docs[0] == MakeDocument(mintId(base), entry.date, entry.visitor);
  }

  lemma BucketEntriesStep(date: string, pairs: seq<Pair>, j: int)
    requires 0 <= j < |pairs|
    ensures BucketEntries(date, pairs[..j + 1]) == BucketEntries(date, pairs[..j]) + [Entry(date, pairs[j])]
  {
    var longer := BucketEntries(date, pairs[..j + 1]);
    var shorter := BucketEntries(date, pairs[..j]);
    forall k | 0 <= k <= j ensures longer[k] == (shorter + [Entry(date, pairs[j])])[k] {
      assert pairs[..j + 1][k] == pairs[k];
    }
  }

  /**
   * What `transform_for_cosmos_db` returns: one document per entry of the
   * fan-out, the k-th with the k-th identifier drawn, or the fan-out's error.
   */
  function Transformed(buckets: seq<Bucket>, mintId: nat -> string): Result<seq<Document>, TransformError> {
    match Fanout(buckets)
    case Err(e) => Err(e)
    case Ok(entries) => Ok(Documents(entries, mintId, 0))
  }

  lemma PrependAssociates(a: seq<Entry>, b: seq<Entry>, r: Result<seq<Entry>, TransformError>)
    ensures Prepend(a, Prepend(b, r)) == Prepend(a + b, r)
  {
    if r.Ok? {
      assert a + (b + r.value) == (a + b) + r.value;
    }
  }

  lemma PrependNothing(r: Result<seq<Entry>, TransformError>)
    ensures Prepend([], r) == r
  {
    if r.Ok? {
      assert [] + r.value == r.value;
    }
  }

  /** Documents of two runs of entries are the documents of each, identifiers continuing. */
  lemma DocumentsAppend(a: seq<Entry>, b: seq<Entry>, mintId: nat -> string, base: nat)
    ensures Documents(a + b, mintId, base) == Documents(a, mintId, base) + Documents(b, mintId, base + |a|)
  {
    var all := Documents(a + b, mintId, base);
    var front := Documents(a, mintId, base);
    var back := Documents(b, mintId, base + |a|);
    forall k | 0 <= k < |all| ensures all[k] == (front + back)[k] {
      if k < |a| {
        assert (a + b)[k] == a[k];
      } else {
        assert (a + b)[k] == b[k - |a|];
      }
    }
  }

  /**
   * The inner loop of `transform_for_cosmos_db` (lines 35 to 46): one
   * document per pair of a bucket, appended in turn, each with the next
   * identifier drawn.
   */
  method AppendBucket(docs: seq<Document>, ghost entries: seq<Entry>, date: string, visitors: seq<Pair>, mintId: nat -> string)
    returns (newDocs: seq<Document>, ghost newEntries: seq<Entry>)
    requires docs == Documents(entries, mintId, 0)
    ensures newEntries == entries + BucketEntries(date, visitors)
    ensures newDocs == Documents(newEntries, mintId, 0)
  {
    newDocs, newEntries := docs, entries;
    for j := 0 to |visitors|
      invariant newEntries == entries + BucketEntries(date, visitors[..j])
      invariant newDocs == Documents(newEntries, mintId, 0)
    {
      var document := MakeDocument(mintId(|newDocs|), date, visitors[j]);
      var entry := Entry(date, visitors[j]);
      DocumentsAppend(newEntries, [entry], mintId, 0);
      DocumentsSingle(entry, mintId, |newEntries|);
      newDocs := newDocs + [document];
      newEntries := newEntries + [entry];
      BucketEntriesStep(date, visitors, j);
    }
    assert visitors[..|visitors|] == visitors;
  }

  /** `transform_for_cosmos_db` (lines 26 to 47). */
  method TransformForCosmosDb(result: seq<Bucket>, mintId: nat -> string) returns (r: Result<seq<Document>, TransformError>)
    ensures r == Transformed(result, mintId)
  {
    var processedResult: seq<Document> := [];
    ghost var entries: seq<Entry> := [];
    assert result[0..] == result;
    PrependNothing(Fanout(result));
    for i := 0 to |result|
      invariant Fanout(result) == Prepend(entries, Fanout(result[i..]))
      invariant processedResult == Documents(entries, mintId, 0)
    {
      var item := result[i];
      assert result[i..][0] == item && result[i..][1..] == result[i + 1..];
      var uniqueVisitorsValue := item.uniqueVisitors;
      var loglineDate := BucketDate(item);
      if loglineDate.Err? {
        return Err(loglineDate.error);
      }
      if uniqueVisitorsValue.None? {
        return Err(MissingVisitors);
      }
      var visitors := uniqueVisitorsValue.value;
      ghost var before := entries;
      processedResult, entries := AppendBucket(processedResult, entries, loglineDate.value, visitors, mintId);
      PrependAssociates(before, BucketEntries(loglineDate.value, visitors), Fanout(result[i + 1..]));
    }
    assert entries + [] == entries;
    r := Ok(processedResult);
  }

  /**
   * The transform succeeds exactly when every bucket is well formed; otherwise
   * it raises the error of the first bucket that is not.
   */
  lemma {:induction false} FanoutOkIff(buckets: seq<Bucket>)
    ensures Fanout(buckets).Ok? <==> forall b :: 0 <= b < |buckets| ==> WellFormed(buckets[b])
    ensures forall k :: 0 <= k < |buckets| && !WellFormed(buckets[k])
                        && (forall b :: 0 <= b < k ==> WellFormed(buckets[b]))
                        ==> Fanout(buckets) == Err(BucketError(buckets[k]))
    decreases |buckets|
  {
    if buckets != [] && WellFormed(buckets[0]) {
      var rest := buckets[1..];
      FanoutOkIff(rest);
      forall k | 1 <= k < |buckets| && !WellFormed(buckets[k]) && (forall i :: 0 <= i < k ==> WellFormed(buckets[i]))
        ensures Fanout(buckets) == Err(BucketError(buckets[k]))
      {
        assert rest[k - 1] == buckets[k];
        assert forall i :: 0 <= i < k - 1 ==> WellFormed(rest[i]) by {
          forall i | 0 <= i < k - 1 ensures WellFormed(rest[i]) {
            assert rest[i] == buckets[i + 1];
          }
        }
      }
      if forall i :: 0 <= i < |rest| ==> WellFormed(rest[i]) {
        forall i | 0 <= i < |buckets| ensures WellFormed(buckets[i]) {
          if i > 0 {
            assert buckets[i] == rest[i - 1];
          }
        }
      }
    }
  }

  /** The transform's outcome is decided by the buckets alone, not by the identifiers. */
  lemma TransformedOkIff(buckets: seq<Bucket>, mintId: nat -> string)
    ensures Transformed(buckets, mintId).Ok? <==> forall b :: 0 <= b < |buckets| ==> WellFormed(buckets[b])
    ensures forall k :: 0 <= k < |buckets| && !WellFormed(buckets[k])
                        && (forall b :: 0 <= b < k ==> WellFormed(buckets[b]))
                        ==> Transformed(buckets, mintId) == Err(BucketError(buckets[k]))
  {
    FanoutOkIff(buckets);
  }

  /** One step of the fan-out: the first bucket's entries, then the rest's. */
  lemma FanoutStep(buckets: seq<Bucket>)
    requires buckets != [] && Fanout(buckets).Ok?
    ensures WellFormed(buckets[0]) && Fanout(buckets[1..]).Ok?
    ensures Fanout(buckets).value
            == BucketEntries(BucketDate(buckets[0]).value, buckets[0].uniqueVisitors.value) + Fanout(buckets[1..]).value
  {
  }

  /** The fan-out has one entry per pair of every bucket. */
  lemma {:induction false} FanoutLength(buckets: seq<Bucket>)
    requires Fanout(buckets).Ok?
    ensures |Fanout(buckets).value| == TotalPairs(buckets)
    decreases |buckets|
  {
    if buckets != [] {
      FanoutStep(buckets);
      FanoutLength(buckets[1..]);
    }
  }

  /**
   * When the fan-out succeeds, its first bucket is well formed and the other
   * buckets' fan-out succeeds too: the first half of `FanoutStep`, without the
   * concatenation, so that `FanoutAt` does not have to reason about it.
   */
  lemma FanoutRestOk(buckets: seq<Bucket>)
    requires buckets != [] && Fanout(buckets).Ok?
    ensures WellFormed(buckets[0]) && Fanout(buckets[1..]).Ok?
  {
  }

  /** The first bucket's pairs open the fan-out. */
  lemma FanoutAtFirst(buckets: seq<Bucket>, j: nat)
    requires Fanout(buckets).Ok? && buckets != [] && j < PairCount(buckets[0])
    ensures WellFormed(buckets[0]) && j < |Fanout(buckets).value|
    ensures Fanout(buckets).value[j] == Entry(BucketDate(buckets[0]).value, buckets[0].uniqueVisitors.value[j])
  {
    FanoutStep(buckets);
  }

  /** After the first bucket's pairs, the fan-out continues with the fan-out of the other buckets. */
  lemma FanoutAtLater(buckets: seq<Bucket>, k: nat)
    requires Fanout(buckets).Ok? && buckets != []
    requires Fanout(buckets[1..]).Ok? && k < |Fanout(buckets[1..]).value|
    ensures PairCount(buckets[0]) + k < |Fanout(buckets).value|
    ensures Fanout(buckets).value[PairCount(buckets[0]) + k] == Fanout(buckets[1..]).value[k]
  {
    FanoutStep(buckets);
  }

  lemma TotalPairsStep(buckets: seq<Bucket>, b: nat)
    requires 0 < b <= |buckets|
    ensures TotalPairs(buckets[..b]) == PairCount(buckets[0]) + TotalPairs(buckets[1..][..b - 1])
  {
    assert buckets[..b][0] == buckets[0] && buckets[..b][1..] == buckets[1..][..b - 1];
  }

  /** An entry at position k of the other buckets' fan-out sits past the first bucket's pairs in the whole fan-out. */
  lemma FanoutAtShift(buckets: seq<Bucket>, b: nat, j: nat, k: nat, entry: Entry)
    requires Fanout(buckets).Ok? && 0 < b <= |buckets|
    requires Fanout(buckets[1..]).Ok? && k < |Fanout(buckets[1..]).value|
    requires k == TotalPairs(buckets[1..][..b - 1]) + j && Fanout(buckets[1..]).value[k] == entry
    ensures TotalPairs(buckets[..b]) + j < |Fanout(buckets).value|
    ensures Fanout(buckets).value[TotalPairs(buckets[..b]) + j] == entry
  {
    TotalPairsStep(buckets, b);
    FanoutAtLater(buckets, k);
  }

  /** Pair j of bucket b is the entry at position (pairs of the earlier buckets) + j. */
  lemma {:induction false} FanoutAt(buckets: seq<Bucket>, b: nat, j: nat)
    requires Fanout(buckets).Ok?
    requires b < |buckets| && j < PairCount(buckets[b])
    ensures WellFormed(buckets[b])
    ensures TotalPairs(buckets[..b]) + j < |Fanout(buckets).value|
    ensures Fanout(buckets).value[TotalPairs(buckets[..b]) + j]
            == Entry(BucketDate(buckets[b]).value, buckets[b].uniqueVisitors.value[j])
    decreases b
  {
    if b == 0 {
      assert buckets[..0] == [];
      FanoutAtFirst(buckets, j);
    } else {
      var rest := buckets[1..];
      FanoutRestOk(buckets);
      assert rest[b - 1] == buckets[b];
      FanoutAt(rest, b - 1, j);
      var entry := Entry(BucketDate(buckets[b]).value, buckets[b].uniqueVisitors.value[j]);
      FanoutAtShift(buckets, b, j, TotalPairs(rest[..b - 1]) + j, entry);
    }
  }

  /** The document of pair j of bucket b, at its position in the output. */
  lemma TransformedAt(buckets: seq<Bucket>, mintId: nat -> string, b: nat, j: nat)
    requires Transformed(buckets, mintId).Ok?
    requires b < |buckets| && j < PairCount(buckets[b])
    ensures WellFormed(buckets[b])
    ensures TotalPairs(buckets[..b]) + j < |Transformed(buckets, mintId).value|
    ensures Transformed(buckets, mintId).value[TotalPairs(buckets[..b]) + j]
            == MakeDocument(mintId(TotalPairs(buckets[..b]) + j), BucketDate(buckets[b]).value,
                            buckets[b].uniqueVisitors.value[j])
  {
    FanoutAt(buckets, b, j);
    var k := TotalPairs(buckets[..b]) + j;
    var entry := Fanout(buckets).value[k];
    assert entry.date == BucketDate(buckets[b]).value && entry.visitor == buckets[b].uniqueVisitors.value[j];
    assert Transformed(buckets, mintId).value[k] == MakeDocument(mintId(k), entry.date, entry.visitor);
  }

  /** The output has one document per pair of every bucket. */
  lemma TransformedLength(buckets: seq<Bucket>, mintId: nat -> string)
    requires Transformed(buckets, mintId).Ok?
    ensures |Transformed(buckets, mintId).value| == TotalPairs(buckets)
  {
    FanoutLength(buckets);
  }

  /** Every document the transform emits lacks the raw visitor-list key. */
  lemma TransformedLacksRawKey(buckets: seq<Bucket>, mintId: nat -> string)
    requires Transformed(buckets, mintId).Ok?
    ensures forall d :: d in Transformed(buckets, mintId).value ==> RawVisitorsKey !in d
  {
    var entries := Fanout(buckets).value;
    var docs := Transformed(buckets, mintId).value;
    forall d | d in docs ensures RawVisitorsKey !in d {
      var k :| 0 <= k < |docs| && docs[k] == d;
      DocumentFields(mintId(k), entries[k].date, entries[k].visitor);
    }
  }

  /** The k-th emitted document carries the k-th identifier drawn. */
  lemma TransformedIds(buckets: seq<Bucket>, mintId: nat -> string)
    requires Transformed(buckets, mintId).Ok?
    ensures var docs := Transformed(buckets, mintId).value;
            forall k :: 0 <= k < |docs| ==> IdKey in docs[k] && docs[k][IdKey] == Text(mintId(k))
  {
    var entries := Fanout(buckets).value;
    var docs := Transformed(buckets, mintId).value;
    forall k | 0 <= k < |docs| ensures IdKey in docs[k] && docs[k][IdKey] == Text(mintId(k)) {
      DocumentFields(mintId(k), entries[k].date, entries[k].visitor);
    }
  }

  /** With an injective identifier source, the emitted documents have pairwise distinct ids. */
  lemma TransformedIdsDistinct(buckets: seq<Bucket>, mintId: nat -> string)
    requires Transformed(buckets, mintId).Ok?
    requires forall m, n :: m != n ==> mintId(m) != mintId(n)
    ensures var docs := Transformed(buckets, mintId).value;
            forall m, n :: 0 <= m < n < |docs| ==>
              IdKey in docs[m] && IdKey in docs[n] && docs[m][IdKey] != docs[n][IdKey]
  {
    TransformedIds(buckets, mintId);
  }

  /** `item.pop("unique_visitors_value", None)` on a copy of `item`. */
  function WithoutRawVisitors(item: Document): Document {
    item - {RawVisitorsKey}
  }

  /** Dropping the raw visitor-list key removes it and leaves every other key and value. */
  lemma WithoutRawVisitorsFields(item: Document)
    ensures RawVisitorsKey !in WithoutRawVisitors(item)
    ensures WithoutRawVisitors(item).Keys == item.Keys - {RawVisitorsKey}
    ensures forall k :: k in WithoutRawVisitors(item) ==> WithoutRawVisitors(item)[k] == item[k]
  {
  }

  lemma WithoutRawVisitorsIdempotent(item: Document)
    ensures WithoutRawVisitors(WithoutRawVisitors(item)) == WithoutRawVisitors(item)
  {
  }

  lemma WithoutRawVisitorsKeepsOthers(item: Document)
    requires RawVisitorsKey !in item
    ensures WithoutRawVisitors(item) == item
  {
  }

  /**
   * `remove_unique_visitors` (lines 50 to 59): copies every document, then
   * pops the raw visitor-list key from each copy; the input is left as it was.
   */
  method RemoveUniqueVisitors(data: seq<Document>) returns (newData: seq<Document>)
    ensures |newData| == |data|
    ensures forall i :: 0 <= i < |data| ==> newData[i] == WithoutRawVisitors(data[i])
  {
    newData := data;
    for i := 0 to |newData|
      invariant |newData| == |data|
      invariant forall k :: 0 <= k < i ==> newData[k] == WithoutRawVisitors(data[k])
      invariant forall k :: i <= k < |newData| ==> newData[k] == data[k]
    {
      newData := newData[i := newData[i] - {RawVisitorsKey}];
    }
  }

  /**
   * `process` (lines 20 and 21): the transform followed by the stripping pass.
   * The pass changes nothing, because no document holds the key it removes.
   */
  method Process(result: seq<Bucket>, mintId: nat -> string) returns (r: Result<seq<Document>, TransformError>)
    ensures r == Transformed(result, mintId)
  {
    var transformed := TransformForCosmosDb(result, mintId);
    if transformed.Err? {
      return transformed;
    }
    var stripped := RemoveUniqueVisitors(transformed.value);
    TransformedLacksRawKey(result, mintId);
    forall i | 0 <= i < |stripped| ensures stripped[i] == transformed.value[i] {
      assert transformed.value[i] in transformed.value;
      WithoutRawVisitorsKeepsOthers(transformed.value[i]);
    }
    assert stripped == transformed.value;
    r := Ok(stripped);
  }
}
