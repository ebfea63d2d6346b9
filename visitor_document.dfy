/**
 * The records shared by the ingest and the query pipelines.  A stored
 * document is a JSON object, modelled as a map from key to field value, so
 * that adding and removing keys means what it means on a Python `dict`.
 */
module VisitorDocument {

  /** One observed visitor: the user-agent string and the client address. */
  datatype Pair = Pair(userAgent: string, clientIp: string)

  /** The field values a visitor document holds. */
  datatype Field = Text(text: string) | PairList(pairs: seq<Pair>)

  type Document = map<string, Field>

  const IdKey := "id"
  const PartitionKeyKey := "partition_key"
  const DateKey := "date"
  const LastOctetKey := "last_octet"

  /** The key under which a document stores its single visitor pair. */
  const VisitorKey := "unique_visitor_value"

  /** The key of the raw visitor list of an aggregation bucket (plural "visitors"). */
  const RawVisitorsKey := "unique_visitors_value"
}
