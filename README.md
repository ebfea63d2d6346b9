# Unique-visitor pipeline: a verified Dafny model

Two Azure Functions make up this system. Together they count the distinct visitors of a web site per day.

- **Aggregator** (`azure_function_aggregator/aggregator.py`). It receives aggregation buckets from an upstream job. Each bucket holds a start timestamp and a list of (user agent, client address) pairs. The aggregator fans every bucket out into one Cosmos DB document per pair. Each document is keyed by partition key `"<date>_<last octet of the address>"`. A copying pass then strips the raw visitor-list key from every document.
- **Unique-visitor calculator** (`azure_function_unique_visitor_calculator/calculator.py` and `database_connector.py`). It answers an HTTP request that names a `from_date` and a `to_date`. First it validates the range with an ordered chain of checks. It then lists every day of the range, latest first. For each day it queries the store for the number of distinct `user agent + "," + address` strings stored under that date. It answers with a JSON object from date to count, whose keys come in the order of the day list, latest first.

The project has these modules:

| file | module | what it holds |
|---|---|---|
| `wrappers.dfy` | `Wrappers` | `Option` and `Result` |
| `civil_date.dfy` | `CivilDate` | proleptic Gregorian dates and their day numbers, as Python's `date.toordinal` / `date.fromordinal` compute them |
| `iso_date.dfy` | `IsoDate` | the `YYYY-MM-DD` calendar-date format of ISO 8601 (section 4.1.2.2), which is RFC 3339's `full-date` (section 5.6): a strict parser, a formatter, and their round trips |
| `visitor_document.dfy` | `VisitorDocument` | visitor pairs and stored documents, with a document modelled as a map from key to field |
| `calculator.dfy` | `Calculator` | the field getters, the ordered range checks, the day-list loop with its in-place reversal, and the validation order of `process` |
| `aggregator.dfy` | `Aggregator` | bucket dates, the last octet, the document fan-out with its nested loops, the key-stripping pass, and their composition |
| `database_connector.dfy` | `DatabaseConnector` | the query as a distinct count over an in-memory store, and the per-date report loop |
| `pipeline.dfy` | `Pipeline` | the two functions together: what the aggregator stores is what the query counts |

Modelling choices:
- "Now" is a parameter: a UTC day number and the microseconds elapsed in that day. A requested date stands for its midnight, UTC.
- `uuid.uuid4()` is an injected identifier source `mintId: nat -> string`. The k-th document of a run gets `mintId(k)`.
- A bucket's timestamp is whole seconds since 1970-01-01T00:00Z. Its date is the UTC day containing it.
- The Cosmos DB container is a sequence of documents.
- The upstream job's output is the input list of buckets.

## Model

| member | source | states |
|---|---|---|
| `Calculator.Message` | azure_function_unique_visitor_calculator/calculator.py:47-98 | the text `process` answers a refused request with: each exception's message, word for word |
| `Calculator.GetFromDate` | azure_function_unique_visitor_calculator/calculator.py:44-48 | succeeds exactly when "from_date" is present and non-empty, returns that value, and otherwise fails with the "should contain 'from_date'" error |
| `Calculator.GetToDate` | azure_function_unique_visitor_calculator/calculator.py:51-55 | the same for "to_date" |
| `Calculator.RequestDateList` | azure_function_unique_visitor_calculator/calculator.py:21-27 | what `process` makes of a request body before the query: the first getter error, or the date-list outcome (characterised by `Calculator.RequestOrder`) |
| `Calculator.ValidateRequest` | azure_function_unique_visitor_calculator/calculator.py:21-27 | gives the from-date getter's error, then the to-date getter's, then the date-list outcome, as `RequestDateList` |
| `Calculator.RequestOrder` | azure_function_unique_visitor_calculator/calculator.py:21-27 | a missing from-date is reported before a missing to-date; with both present the answer is the date-list outcome; the empty-date check of the date-list builder is never reached from a request |
| `Calculator.CheckRange` | azure_function_unique_visitor_calculator/calculator.py:63-98 | the checks of `_get_date_list` in source order, with the comparisons at lines 84 and 94 read as the UTC comparisons the comments describe: the first failing check's error, or the parsed dates (characterised by `Calculator.DateListOkIff` and `Calculator.DateListErrors`) |
| `Calculator.DateList` | azure_function_unique_visitor_calculator/calculator.py:58-109 | what `_get_date_list` returns: the checks' outcome, the overflow past 9999-12-31, or the day list (characterised by `Calculator.DateListOkIff`, `Calculator.DateListAccepted` and `Calculator.DateListMembers`) |
| `Calculator.Descending` | azure_function_unique_visitor_calculator/calculator.py:100-105 | the day list the loop and the reversal produce for a range, as a function of its end points (characterised by `Calculator.DescendingFacts`) |
| `Calculator.GetDateList` | azure_function_unique_visitor_calculator/calculator.py:58-109 | the method's checks, in source order, and its loop give the outcome `DateList` |
| `Calculator.ListDays` | azure_function_unique_visitor_calculator/calculator.py:100-105 | the append-and-advance loop followed by the reversal yields every day from the end date down to the start date; stepping past 9999-12-31 raises the overflow error |
| `Calculator.DaysUpAppend` | azure_function_unique_visitor_calculator/calculator.py:102-103 | appending the next day's text to the days so far, from the start date up, gives the days so far and one more |
| `Calculator.Reverse` | azure_function_unique_visitor_calculator/calculator.py:105 | the reversed list has the same length, and entry k is entry n-1-k of the input |
| `Calculator.ReversedAscending` | azure_function_unique_visitor_calculator/calculator.py:100-105 | a list whose entry k is entry count-1-k of the days from the start date up, is the list of the days from the end date down |
| `Calculator.DayNameParses` | azure_function_unique_visitor_calculator/calculator.py:102 | the text written for day n parses back to a date with day number n |
| `Calculator.DayNameOfDate` | azure_function_unique_visitor_calculator/calculator.py:102 | the text written for a date's day number is that date's `YYYY-MM-DD` text |
| `Calculator.DescendingAt` | azure_function_unique_visitor_calculator/calculator.py:100-105 | entry i of the descending list is the date i days before the end date |
| `Calculator.DescendingEnds` | azure_function_unique_visitor_calculator/calculator.py:100-105 | the descending list has to - from + 1 entries, its first is the end date's text and its last the start date's |
| `Calculator.DescendingParses` | azure_function_unique_visitor_calculator/calculator.py:100-105 | every entry of the descending list reads back as the date as many days before the end date as its position |
| `Calculator.DaysDownSlice` | azure_function_unique_visitor_calculator/calculator.py:100-105 | a slice of a list of consecutive days, latest first, is the list of the days it covers |
| `Calculator.DescendingFacts` | azure_function_unique_visitor_calculator/calculator.py:100-105 | the descending list has to - from + 1 entries, starts with the end date, ends with the start date, and steps back one day per entry |
| `Calculator.FutureCheckIsDayComparison` | azure_function_unique_visitor_calculator/calculator.py:83-85 | a date's midnight is later than now exactly when the date is a later day than today, so today itself passes |
| `Calculator.AgeCheckBoundary` | azure_function_unique_visitor_calculator/calculator.py:94-98 | the start is more than 90 days before now exactly when it is more than 90 days before today, or exactly 90 days before today and now is not midnight |
| `Calculator.DateListOkIff` | azure_function_unique_visitor_calculator/calculator.py:64-98 | a request succeeds exactly when both dates are valid `YYYY-MM-DD` dates, in order, end no later than today, span at most 90 days, start within the age bound, and do not end on 9999-12-31 |
| `Calculator.DateListErrors` | azure_function_unique_visitor_calculator/calculator.py:63-98 | each error is reported exactly when its own check fails and every earlier check passed, in the order empty, format, inverted, future, span, age |
| `Calculator.DateListOk` | azure_function_unique_visitor_calculator/calculator.py:76-105 | an accepted request's dates parse, are in order, and its list is the descending list of that range |
| `Calculator.DescendingEndsParsed` | azure_function_unique_visitor_calculator/calculator.py:100-105 | the list between two parsed texts starts with the to-text itself and ends with the from-text itself |
| `Calculator.DateListEnds` | azure_function_unique_visitor_calculator/calculator.py:87-105 | an accepted list has to - from + 1 entries, at most 91, starts with `to_date` and ends with `from_date` |
| `Calculator.DateListDays` | azure_function_unique_visitor_calculator/calculator.py:94-105 | entry i of an accepted list is the date i days before `to_date`, and lies within the 90 days up to today |
| `Calculator.DateListAccepted` | azure_function_unique_visitor_calculator/calculator.py:87-105 | an accepted list has to - from + 1 entries, at most 91; its first entry is `to_date`, its last is `from_date`; each entry is a date one day before the previous one, within the 90 days up to today |
| `Calculator.DateListMembers` | azure_function_unique_visitor_calculator/calculator.py:100-105 | a date's text is in an accepted list exactly when the date lies within the requested range |
| `Calculator.DateListDistinct` | azure_function_unique_visitor_calculator/calculator.py:100-105 | no day is listed twice |
| `Calculator.DescendingSlice` | azure_function_unique_visitor_calculator/calculator.py:100-105 | the list of a sub-range is the matching slice of the list of the whole range |
| `Calculator.DateListOfDates` | azure_function_unique_visitor_calculator/calculator.py:64-105 | two valid dates that pass every check, written as text, are answered with the list of their range |
| `Calculator.SubRangeOfDates` | azure_function_unique_visitor_calculator/calculator.py:64-105 | within a range the checks accept, a sub-range written as text is answered with the matching slice of the whole range's list |
| `Calculator.SubRangeAccepted` | azure_function_unique_visitor_calculator/calculator.py:64-98 | any range inside an accepted range is accepted too, and its list is the matching slice |
| `Calculator.TodayAccepted` | azure_function_unique_visitor_calculator/calculator.py:81-85 | a request for today alone is accepted and lists today |
| `Calculator.ExampleAccepted` | azure_function_unique_visitor_calculator/calculator.py:100-105 | at 2024-03-15T10:00Z, 2024-03-13..2024-03-15 lists the three days, latest first |
| `Calculator.DaysDownThree` | azure_function_unique_visitor_calculator/calculator.py:100-105 | three days ending with a given day are that day, the day before, and the day before that |
| `Calculator.DayNameOfText` | azure_function_unique_visitor_calculator/calculator.py:102 | a text that parses to day n is the text written for day n |
| `Calculator.ExampleDayNames` | azure_function_unique_visitor_calculator/calculator.py:102 | days 738958 to 738960 are written 2024-03-13, 2024-03-14 and 2024-03-15 |
| `Calculator.ExampleFuture` | azure_function_unique_visitor_calculator/calculator.py:84-85 | at 2024-03-15T10:00Z, a range ending 2024-03-16 is refused as in the future |
| `Calculator.ExampleInverted` | azure_function_unique_visitor_calculator/calculator.py:77-78 | a to-date before the from-date is refused as inverted |
| `Calculator.ExampleSpanTooLong` | azure_function_unique_visitor_calculator/calculator.py:91-92 | 2023-12-01..2024-03-15, 105 days apart (106 days counted inclusively), is refused for its span |
| `Calculator.ExampleStartAge` | azure_function_unique_visitor_calculator/calculator.py:97-98 | at 2024-03-15T10:00Z, a start 90 days back (2023-12-16) is refused and one 89 days back (2023-12-17) is accepted |
| `Calculator.ExampleMalformed` | azure_function_unique_visitor_calculator/calculator.py:64-74 | Feb 30 and a one-digit month are refused for format; an empty from-date is refused as empty |
| `Calculator.DateListAsWritten` | azure_function_unique_visitor_calculator/calculator.py:58-109 | `_get_date_list` as written, where comparing the naive end date with the aware now raises TypeError (characterised by `Calculator.AsWrittenRefusesEverything`) |
| `Calculator.AsWrittenRefusesEverything` | azure_function_unique_visitor_calculator/calculator.py:81-85 | as written, every request fails; every request the intended checks accept is refused with the TypeError's message; both agree exactly on the first three errors |
| `Calculator.AsWrittenRefusesToday` | azure_function_unique_visitor_calculator/calculator.py:84 | today's date, which the intended check accepts, is refused by the code as written |
| `CivilDate.Ordinal` | azure_function_unique_visitor_calculator/calculator.py:77 | a valid date's day number, as `date.toordinal` gives it, lies between 1 and that of 9999-12-31 |
| `CivilDate.FromOrdinal` | azure_function_aggregator/aggregator.py:33 | the date of a day number, as `date.fromordinal` gives it (characterised by `CivilDate.FromOrdinalCorrect` and `CivilDate.FromOrdinalOfOrdinal`) |
| `CivilDate.NextDay` | azure_function_unique_visitor_calculator/calculator.py:103 | adding one day gives a valid date whose day number is one more |
| `CivilDate.OrdinalOrder` | azure_function_unique_visitor_calculator/calculator.py:77 | comparing day numbers compares dates by (year, month, day) |
| `CivilDate.OrdinalInjective` | azure_function_unique_visitor_calculator/calculator.py:77 | distinct valid dates have distinct day numbers |
| `CivilDate.FromOrdinalCorrect` | azure_function_aggregator/aggregator.py:33 | every day number from 1 to that of 9999-12-31 names a valid date with that day number |
| `CivilDate.FromOrdinalOfOrdinal` | azure_function_aggregator/aggregator.py:33 | converting a date to its day number and back gives the date |
| `CivilDate.MaxDateIsLast` | azure_function_unique_visitor_calculator/calculator.py:103 | 9999-12-31 has the greatest day number, and it is the only date with it |
| `IsoDate.Parse` | azure_function_unique_visitor_calculator/calculator.py:68-74 | whatever the parser accepts is a valid calendar date |
| `IsoDate.Format` | azure_function_unique_visitor_calculator/calculator.py:102 | the formatted text is ten characters with '-' at positions 4 and 7 |
| `IsoDate.ParseFormat` | azure_function_unique_visitor_calculator/calculator.py:68-74 | parsing a formatted date gives the date back |
| `IsoDate.FormatParse` | azure_function_unique_visitor_calculator/calculator.py:68-74 | formatting a parsed date gives the text back, so only canonical `YYYY-MM-DD` text is accepted |
| `IsoDate.ParseIffFormatted` | azure_function_unique_visitor_calculator/calculator.py:68-74 | text parses to a date exactly when it is that valid date's formatted text |
| `IsoDate.FormatInjective` | azure_function_unique_visitor_calculator/calculator.py:102 | distinct dates are written differently |
| `IsoDate.ParseRejectsImpossibleDates` | azure_function_unique_visitor_calculator/calculator.py:68-74 | month 13, month 0, Feb 30, Feb 29 of a common year, year 0, one-digit months, other separators and the empty string are refused; Feb 29 of a leap year is accepted |
| `Aggregator.LoglineDate` | azure_function_aggregator/aggregator.py:33 | the ISO date of the UTC day holding a timestamp, or the out-of-range error (characterised by `Aggregator.LoglineDateIsUtcDay`) |
| `Aggregator.BucketDate` | azure_function_aggregator/aggregator.py:33 | a bucket's date: the missing-timestamp error when "start_timestamp" is absent, otherwise its timestamp's date |
| `Aggregator.EpochIsNewYear1970` | azure_function_aggregator/aggregator.py:33 | day number 719163 is 1970-01-01 |
| `Aggregator.LoglineDateIsUtcDay` | azure_function_aggregator/aggregator.py:33 | a timestamp gets a date exactly when it lies in years 1 to 9999; that date is the UTC day whose 86400 seconds contain it |
| `Aggregator.InstantDayInRange` | azure_function_aggregator/aggregator.py:33 | a timestamp's day number is between 1 and that of 9999-12-31 exactly when the timestamp lies in years 1 to 9999 |
| `Aggregator.LoglineDateParses` | azure_function_aggregator/aggregator.py:33 | the date text of an accepted timestamp reads back as the day containing it |
| `Aggregator.Split` | azure_function_aggregator/aggregator.py:37 | splitting never yields an empty list |
| `Aggregator.SplitJoin` | azure_function_aggregator/aggregator.py:37 | no piece holds the separator, and joining the pieces with it gives the string back |
| `Aggregator.SplitPiecesLackSeparator` | azure_function_aggregator/aggregator.py:37 | no piece of `s.split(sep)` holds `sep` |
| `Aggregator.SplitJoinsBack` | azure_function_aggregator/aggregator.py:37 | joining the pieces of `s.split(sep)` with `sep` gives `s` back |
| `Aggregator.LastOctet` | azure_function_aggregator/aggregator.py:37 | `client_ip.split('.')[-1]` (characterised by `Aggregator.LastOctetIsLastSegment` and `Aggregator.LastOctetIsLastPiece`) |
| `Aggregator.LastOctetIsLastSegment` | azure_function_aggregator/aggregator.py:37 | a string is the last octet exactly when it is a dot-free suffix that is the whole address or follows a '.' |
| `Aggregator.LastOctetIsLastPiece` | azure_function_aggregator/aggregator.py:37 | the last octet is the last element of `client_ip.split('.')` |
| `Aggregator.LastSegmentUnique` | azure_function_aggregator/aggregator.py:37 | an address has only one last segment |
| `Aggregator.LastOctetOfDottedQuad` | azure_function_aggregator/aggregator.py:37 | "192.168.1.42" gives "42"; "::1", which has no '.', gives the whole address |
| `Aggregator.MakeDocument` | azure_function_aggregator/aggregator.py:38-45 | the document built for one pair (characterised by `Aggregator.DocumentFields`) |
| `Aggregator.DocumentFields` | azure_function_aggregator/aggregator.py:38-45 | a document has exactly the keys id, partition_key, date, last_octet and unique_visitor_value; its partition key is its date and last octet joined by '_'; its last octet is the address's last segment; it holds its own pair as a one-element list |
| `Aggregator.BucketEntries` | azure_function_aggregator/aggregator.py:35-36 | a bucket contributes one entry per pair |
| `Aggregator.Documents` | azure_function_aggregator/aggregator.py:38-46 | one document is made per entry |
| `Aggregator.DocumentsAppend` | azure_function_aggregator/aggregator.py:35-46 | documents made for two runs of entries, one after the other, are those of each run, the identifiers continuing where the first left off |
| `Aggregator.AppendBucket` | azure_function_aggregator/aggregator.py:35-46 | the inner loop appends one document per pair of the bucket, each with the next identifier drawn, so the output stays the documents of every entry seen so far |
| `Aggregator.TransformForCosmosDb` | azure_function_aggregator/aggregator.py:26-47 | the nested loops produce `Transformed`: every bucket's documents in bucket order, or the error of the first bucket that is not well formed |
| `Aggregator.WellFormed` | azure_function_aggregator/aggregator.py:31-35 | a bucket the loop gets through: it has a timestamp whose date is in years 1 to 9999 and a visitor list (characterised by `Aggregator.FanoutOkIff`) |
| `Aggregator.BucketError` | azure_function_aggregator/aggregator.py:32-35 | the error a bucket that is not well formed raises: the timestamp's error first, at line 33, then the missing visitor list at line 35 (characterised by `Aggregator.FanoutOkIff`) |
| `Aggregator.Fanout` | azure_function_aggregator/aggregator.py:31-46 | the (date, pair) entries the nested loops visit, in order, or the error of the first bucket that is not well formed (characterised by `Aggregator.FanoutOkIff` and `Aggregator.FanoutAt`) |
| `Aggregator.Transformed` | azure_function_aggregator/aggregator.py:26-47 | what `transform_for_cosmos_db` returns: one document per fan-out entry, the k-th with the k-th identifier, or the fan-out's error (characterised by `Aggregator.TransformedOkIff` and `Aggregator.TransformedAt`) |
| `Aggregator.FanoutOkIff` | azure_function_aggregator/aggregator.py:31-35 | the fan-out succeeds exactly when every bucket is well formed, and otherwise fails with the error of the first bucket that is not |
| `Aggregator.FanoutStep` | azure_function_aggregator/aggregator.py:31-46 | a successful fan-out is the first bucket's entries followed by the fan-out of the rest |
| `Aggregator.FanoutLength` | azure_function_aggregator/aggregator.py:31-46 | the fan-out has one entry per pair of every bucket |
| `Aggregator.FanoutAt` | azure_function_aggregator/aggregator.py:31-46 | pair j of bucket b is the entry at position (pairs of earlier buckets) + j, with that bucket's date |
| `Aggregator.TransformedOkIff` | azure_function_aggregator/aggregator.py:31-35 | the transform succeeds exactly when every bucket has a usable timestamp and a visitor list; otherwise it fails with the first bad bucket's error |
| `Aggregator.TransformedLength` | azure_function_aggregator/aggregator.py:31-46 | the output length is the sum over buckets of their pair counts |
| `Aggregator.TransformedAt` | azure_function_aggregator/aggregator.py:31-46 | pair j of bucket b becomes the document at position (pairs of earlier buckets) + j, with that bucket's date, that pair, and that position's identifier |
| `Aggregator.TransformedLacksRawKey` | azure_function_aggregator/aggregator.py:44 | no emitted document holds the plural key "unique_visitors_value" |
| `Aggregator.TransformedIds` | azure_function_aggregator/aggregator.py:40 | the k-th document's id is the k-th identifier drawn |
| `Aggregator.TransformedIdsDistinct` | azure_function_aggregator/aggregator.py:40 | with an identifier source that never repeats, all document ids differ |
| `Aggregator.WithoutRawVisitors` | azure_function_aggregator/aggregator.py:56-58 | a copy of a document without the key "unique_visitors_value" (characterised by `Aggregator.WithoutRawVisitorsFields`) |
| `Aggregator.WithoutRawVisitorsFields` | azure_function_aggregator/aggregator.py:56-59 | stripping removes "unique_visitors_value" and keeps every other key and its value |
| `Aggregator.WithoutRawVisitorsIdempotent` | azure_function_aggregator/aggregator.py:56-59 | stripping twice is stripping once |
| `Aggregator.WithoutRawVisitorsKeepsOthers` | azure_function_aggregator/aggregator.py:58 | a document without the key is left as it is |
| `Aggregator.RemoveUniqueVisitors` | azure_function_aggregator/aggregator.py:50-59 | the result has the same length and order, and each entry is its input minus the key |
| `Aggregator.Process` | azure_function_aggregator/aggregator.py:18-23 | the transform followed by the stripping pass returns exactly the transform's output |
| `DatabaseConnector.DocumentVisitors` | azure_function_unique_visitor_calculator/database_connector.py:51-54 | the pairs one document contributes to the query for a date: its visitor list when its "date" field is that date, otherwise none |
| `DatabaseConnector.VisitorsOn` | azure_function_unique_visitor_calculator/database_connector.py:51-54 | the pairs `JOIN val IN c.unique_visitor_value WHERE c.date = @logline_date` ranges over, document by document |
| `DatabaseConnector.ConcatKey` | azure_function_unique_visitor_calculator/database_connector.py:53 | `CONCAT(val[0], ',', val[1])` for one pair (characterised by `DatabaseConnector.ConcatKeyInjective` and `DatabaseConnector.CommaInAddressMerges`) |
| `DatabaseConnector.KeysOf` | azure_function_unique_visitor_calculator/database_connector.py:53 | the distinct `CONCAT(val[0], ',', val[1])` strings (characterised by `DatabaseConnector.KeysOfMembers`) |
| `DatabaseConnector.DistinctCount` | azure_function_unique_visitor_calculator/database_connector.py:51-55 | the value `SELECT VALUE COUNT(1)` counts for a date (characterised by `DatabaseConnector.DistinctCountBounds` and `DatabaseConnector.DistinctCountIsDistinctPairs`) |
| `DatabaseConnector.QueryRows` | azure_function_unique_visitor_calculator/database_connector.py:57-61 | the rows the query returns for a date (characterised by `DatabaseConnector.QueryRowsValue`) |
| `DatabaseConnector.Report` | azure_function_unique_visitor_calculator/database_connector.py:50-70 | the response looked up by key: each requested date with its distinct count (characterised by `DatabaseConnector.ReportContents`) |
| `DatabaseConnector.Put` | azure_function_unique_visitor_calculator/database_connector.py:67-70 | `response[logline_date] = …` (characterised by `DatabaseConnector.PutAsMap` and `DatabaseConnector.PutKeys`) |
| `DatabaseConnector.ReportEntries` | azure_function_unique_visitor_calculator/database_connector.py:50-70 | the dict the loop builds, one assignment per requested date (characterised by `DatabaseConnector.ReportEntriesKeys` and `DatabaseConnector.ReportEntriesAsMap`) |
| `DatabaseConnector.AsMap` | azure_function_unique_visitor_calculator/database_connector.py:50-70 | what the dict maps each key to (characterised by `DatabaseConnector.PutAsMap` and `DatabaseConnector.ReportEntriesAsMap`) |
| `DatabaseConnector.FirstOccurrences` | azure_function_unique_visitor_calculator/database_connector.py:50-70 | the key order the dict ends with: each requested date once, where first requested (characterised by `DatabaseConnector.FirstOccurrencesMembers` and `DatabaseConnector.FirstOccurrencesOfDistinct`) |
| `DatabaseConnector.KeysInOrder` | azure_function_unique_visitor_calculator/database_connector.py:50-70 | a dict has one key per entry, listed in insertion order |
| `DatabaseConnector.GetUniqueVisitors` | azure_function_unique_visitor_calculator/database_connector.py:38-72 | the loop builds the dict `ReportEntries`: its keys are the requested dates, each once, in the order first requested; looked up by key it is `Report`, every date mapped to 0 when the query returns no row, otherwise to its first row |
| `DatabaseConnector.ReportStep` | azure_function_unique_visitor_calculator/database_connector.py:50-70 | handling one more date adds that date with its distinct count and keeps the rest of the report |
| `DatabaseConnector.PutAsMap` | azure_function_unique_visitor_calculator/database_connector.py:66-70 | `response[logline_date] = …` changes that date's value and no other |
| `DatabaseConnector.PutKeys` | azure_function_unique_visitor_calculator/database_connector.py:66-70 | assigning a date already in the dict keeps the key order; a new date goes at the end |
| `DatabaseConnector.ReportEntriesKeys` | azure_function_unique_visitor_calculator/database_connector.py:50-70 | the dict's keys are the requested dates, each once, in the order first requested |
| `DatabaseConnector.ReportEntriesAsMap` | azure_function_unique_visitor_calculator/database_connector.py:50-70 | looked up by key, the dict maps every requested date to its distinct count |
| `DatabaseConnector.FirstOccurrencesMembers` | azure_function_unique_visitor_calculator/database_connector.py:50-70 | the dict's key order names each requested date exactly once and nothing else |
| `DatabaseConnector.FirstOccurrencesOfDistinct` | azure_function_unique_visitor_calculator/database_connector.py:50-70 | a date list with no repeats gives a dict whose keys are that list, in its order |
| `DatabaseConnector.QueryRowsValue` | azure_function_unique_visitor_calculator/database_connector.py:59-70 | the query returns at most one row, none exactly when no pair is stored for the date, and the value recorded is the distinct count either way |
| `DatabaseConnector.KeysOfMembers` | azure_function_unique_visitor_calculator/database_connector.py:53-54 | a key is selected exactly when some matching pair concatenates to it |
| `DatabaseConnector.KeysOfSize` | azure_function_unique_visitor_calculator/database_connector.py:53-54 | there are at most as many distinct keys as pairs, and none only when there are no pairs |
| `DatabaseConnector.KeysOfAppend` | azure_function_unique_visitor_calculator/database_connector.py:53-54 | the keys of two lists together are the union of their keys |
| `DatabaseConnector.VisitorsOnAppend` | azure_function_unique_visitor_calculator/database_connector.py:54 | the pairs a store holds for a date are those of each part of the store, in order |
| `DatabaseConnector.DistinctCountBounds` | azure_function_unique_visitor_calculator/database_connector.py:51-55 | the count is at most the number of matching pairs, and is positive exactly when some pair matches |
| `DatabaseConnector.OtherDatesIgnored` | azure_function_unique_visitor_calculator/database_connector.py:54 | adding a document of another date does not change the count |
| `DatabaseConnector.VisitorsOnAppendOne` | azure_function_unique_visitor_calculator/database_connector.py:54 | storing one more document adds its pairs for the date after those already stored |
| `DatabaseConnector.KeysOfAppendKnown` | azure_function_unique_visitor_calculator/database_connector.py:53 | a pair whose key is already selected adds no distinct key |
| `DatabaseConnector.DuplicateCountsOnce` | azure_function_unique_visitor_calculator/database_connector.py:53-54 | adding a document for the same date with an already-stored pair does not change the count, whatever its id or partition key |
| `DatabaseConnector.ConcatKeyInjective` | azure_function_unique_visitor_calculator/database_connector.py:53 | when neither address holds a ',', equal keys mean equal pairs |
| `DatabaseConnector.CommaInAddressMerges` | azure_function_unique_visitor_calculator/database_connector.py:53 | ("a,b", "c") and ("a", "b,c") concatenate to the same key and count once |
| `DatabaseConnector.KeysOfCommaFree` | azure_function_unique_visitor_calculator/database_connector.py:53-54 | with comma-free addresses, the distinct keys are as many as the distinct pairs |
| `DatabaseConnector.DistinctCountIsDistinctPairs` | azure_function_unique_visitor_calculator/database_connector.py:51-55 | with comma-free addresses, the count for a date is the number of distinct pairs stored under it |
| `DatabaseConnector.ReportContents` | azure_function_unique_visitor_calculator/database_connector.py:50-70 | the report's keys are exactly the requested dates, and each maps to its own count |
| `DatabaseConnector.ReportIgnoresOrderAndRepeats` | azure_function_unique_visitor_calculator/database_connector.py:50-67 | two date lists naming the same dates give the same report |
| `DatabaseConnector.ReportRepeatedDate` | azure_function_unique_visitor_calculator/database_connector.py:50-67 | repeating a date in the request changes nothing |
| `Pipeline.DocumentVisitorsOfMade` | azure_function_aggregator/aggregator.py:39-45 | the query reads from a visitor document exactly its own pair, and only on its date |
| `Pipeline.EntryPairsOnAppend` | azure_function_aggregator/aggregator.py:31-46 | the pairs dated d in two runs of entries are those of each run, in order |
| `Pipeline.BucketEntriesPairs` | azure_function_aggregator/aggregator.py:35-46 | a bucket's entries hold its pairs, in order, under its date and no other |
| `Pipeline.FanoutPairs` | azure_function_aggregator/aggregator.py:31-46 | the entries of the fan-out dated d hold exactly the pairs of the buckets of date d, in bucket order |
| `Pipeline.DocumentsVisitors` | azure_function_aggregator/aggregator.py:38-46 | the query sees in the documents made from some entries exactly the pairs of the entries of that date, whatever identifiers they get |
| `Pipeline.StoredVisitors` | azure_function_aggregator/aggregator.py:31-46 | the pairs the query sees for a date in the stored output are exactly the pairs of the buckets of that date, in bucket order |
| `Pipeline.DailyUniqueVisitors` | azure_function_unique_visitor_calculator/database_connector.py:51-55 | the count for a day over the aggregator's output is the number of distinct keys of that day's buckets; with comma-free addresses it is the number of distinct (user agent, address) pairs |
| `Pipeline.ResponseFollowsDateList` | azure_function_unique_visitor_calculator/calculator.py:26-32 | for an accepted request the response's keys are exactly the day list, from `to_date` down to `from_date`, each with its distinct count |

## Left out

- HTTP and Azure Functions plumbing is not modelled: `_parse_json`, the response bodies, `main`, and the output binding at aggregator.py:62-75. `Calculator.Message` gives the text of each 400 response.
- JSON request values that are not strings are not modelled, because the request body is a `map<string, string>`. A non-string truthy `from_date` would reach `strptime` and raise a TypeError there.
- `IsoDate.Parse` is stricter than `strptime(s, "%Y-%m-%d")`. Both take exactly four digits for `%Y` and refuse text left over after the day. But `strptime` also takes a one-digit month or day ("2024-3-5"), a space before a one-digit day ("2024-03- 5"), and any Unicode decimal digit. The model accepts canonical `YYYY-MM-DD` text with ASCII digits only. The members named on the next lines depend on that strictness.
- DescendingEndsParsed (`Calculator.DescendingEndsParsed`): it says the list starts with `to_date` and ends with `from_date` exactly as given. The source answers `to_date = "2024-3-5"` with a list whose first entry is the canonical "2024-03-05".
- DateListEnds (`Calculator.DateListEnds`): it says the list starts with `to_date` and ends with `from_date` exactly as given. The source answers `to_date = "2024-3-5"` with a list whose first entry is the canonical "2024-03-05".
- DateListAccepted (`Calculator.DateListAccepted`): it says the list starts with `to_date` and ends with `from_date` exactly as given. The source answers `to_date = "2024-3-5"` with a list whose first entry is the canonical "2024-03-05".
- ResponseFollowsDateList (`Pipeline.ResponseFollowsDateList`): it says the response's first key is `to_date` and its last is `from_date` exactly as given. The source answers `to_date = "2024-3-5"` with a response whose first key is the canonical "2024-03-05"; that the keys are the day list, in order, does not depend on the parser.
- DateListOkIff (`Calculator.DateListOkIff`): it states the format error for every text that is not canonical `YYYY-MM-DD`. The source raises that error only for text `strptime` refuses.
- DateListErrors (`Calculator.DateListErrors`): it states the format error for every text that is not canonical `YYYY-MM-DD`. The source raises that error only for text `strptime` refuses.
- ExampleMalformed (`Calculator.ExampleMalformed`): its one-digit-month case is the strict parser's refusal. `strptime` accepts "2024-3-15", so the source would go on to the later checks.
- ParseRejectsImpossibleDates (`IsoDate.ParseRejectsImpossibleDates`): its one-digit-month and other-separator cases are refused by the model. `strptime` refuses the other separators too, but accepts the one-digit month.
- `IsoDate.Format` gives four-digit years everywhere. `strftime("%Y")` may not zero-pad years below 1000 on some platforms, but a start date below year 1000 is refused by the 90-day age check whenever now is in year 1000 or later.
- `datetime.now(timezone.utc)` is not modelled. "Now" is a parameter (`Calculator.Instant`).
- `Aggregator.LoglineDate` does not model the local time zone of `datetime.fromtimestamp`, nor float timestamps. Timestamps are whole seconds, and the date is taken in UTC.
- The upstream `run_aggregations.main` (aggregator.py:19) is not part of this model. Its output is the input list of buckets.
- `uuid.uuid4()` is not modelled. Ids come from an injected source; uniqueness is proved only for a source that never repeats.
- A visitor entry that is not a two-element sequence (the unpacking at aggregator.py:36) is not modelled, because `Pair` always has two fields.
- Logging is not modelled.
- The Cosmos DB client, the connection setup and the environment-variable reads (database_connector.py:15-36) are not modelled. The store is a sequence of documents that is only read.
- `DatabaseConnector.QueryRows` returns no row for a date with no stored pair. It does not decide whether the database engine would instead return a single 0. Both branches of the loop at database_connector.py:65-70 lead to the same recorded value, and `DatabaseConnector.QueryRowsValue` proves that.
- The query is read as one distinct count over all documents of the date. An engine that evaluated the `JOIN` subquery per outer document would give a different number; that reading is not modelled.
- Aliasing and in-place mutation of the Python lists and dicts are not modelled. The dict `get_unique_visitors` fills is a sequence of (key, value) entries in insertion order, and `json.dumps` is not modelled beyond that order. The loops reassign `seq` and `map` values, so the inputs of `Aggregator.RemoveUniqueVisitors` and `Calculator.Reverse` are unchanged by construction.

## Findings

| source | as written | input that shows it | evidently intended | confidence | as-written member | corrected member |
|---|---|---|---|---|---|---|
| azure_function_unique_visitor_calculator/calculator.py:84 | `end_date > today` compares a naive `datetime` from `strptime` with the aware `datetime.now(timezone.utc)`. Python raises TypeError, and `process` answers 400 with "can't compare offset-naive and offset-aware datetimes". The same mix recurs in the subtraction at line 94. Every request that passes the first three checks is refused. | from_date = to_date = "2024-03-15", requested at 2024-03-15T10:00Z | compare the end date's midnight with now, and the start date's midnight with now, both in UTC, as the comments at lines 83 and 96 describe | not executed | `Calculator.AsWrittenRefusesToday` | `Calculator.DateListOkIff` |
